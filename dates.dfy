/**
 * Proleptic Gregorian calendar dates, as Python's `datetime.date` computes them.
 *
 * `Ordinal` is `date.toordinal()` (0001-01-01 is day 1), `Weekday` is
 * `date.weekday()` (Monday is 0), and `AddDays` is `date + timedelta(days=n)`.
 * The leap-year rule is the Gregorian one of ISO 8601:2004 section 3.2.1, and
 * `IsoCalendar` is `date.isocalendar()`, proved to give the calendar week of
 * ISO 8601:2004 section 2.2.10.
 */
module Dates {

  datatype Date = Date(year: int, month: int, day: int)

  /** Gregorian leap years: divisible by 4, except centuries not divisible by 400. */
  predicate IsLeapYear(y: int) {
    y % 4 == 0 && (y % 100 != 0 || y % 400 == 0)
  }

  function DaysInYear(y: int): int {
    if IsLeapYear(y) then 366 else 365
  }

  function DaysInMonth(y: int, m: int): int {
    if m == 2 then (if IsLeapYear(y) then 29 else 28)
    else if m == 4 || m == 6 || m == 9 || m == 11 then 30
    else 31
  }

  /** What `datetime.date(y, m, d)` accepts (years are not bounded in this model). */
  predicate Valid(d: Date) {
    1 <= d.month <= 12 && 1 <= d.day <= DaysInMonth(d.year, d.month)
  }

  /** Days in the years before `y`, counted from 0001-01-01. */
  function DaysBeforeYear(y: int): int {
    var p := y - 1;
    365 * p + p / 4 - p / 100 + p / 400
  }

  /** Days in the months of year `y` before month `m`, from the table 0, 31, 59, ... */
  function DaysBeforeMonth(y: int, m: int): int
    requires 1 <= m <= 12
  {
    [0, 31, 59, 90, 120, 151, 181, 212, 243, 273, 304, 334][m - 1]
      + (if m > 2 && IsLeapYear(y) then 1 else 0)
  }

  function Ordinal(d: Date): int
    requires Valid(d)
  {
    DaysBeforeYear(d.year) + DaysBeforeMonth(d.year, d.month) + d.day
  }

  /** Monday is 0 and Sunday is 6. */
  function Weekday(d: Date): int
    requires Valid(d)
  {
    (Ordinal(d) + 6) % 7
  }

  function NextDay(d: Date): Date {
    if d.day < DaysInMonth(d.year, d.month) then Date(d.year, d.month, d.day + 1)
    else if d.month < 12 then Date(d.year, d.month + 1, 1)
    else Date(d.year + 1, 1, 1)
  }

  function PrevDay(d: Date): Date {
    if d.day > 1 then Date(d.year, d.month, d.day - 1)
    else if d.month > 1 then Date(d.year, d.month - 1, DaysInMonth(d.year, d.month - 1))
    else Date(d.year - 1, 12, 31)
  }

  /** `d + timedelta(days=n)`, one day at a time. */
  function AddDays(d: Date, n: int): Date
    decreases if n < 0 then -n else n
  {
    if n == 0 then d
    else if n > 0 then AddDays(NextDay(d), n - 1)
    else AddDays(PrevDay(d), n + 1)
  }

  // ---------------------------------------------------------------------
  // Arithmetic facts behind the ordinal
  // ---------------------------------------------------------------------

  lemma DivSteps(y: int)
    ensures y / 4 - (y - 1) / 4 == (if y % 4 == 0 then 1 else 0)
    ensures y / 100 - (y - 1) / 100 == (if y % 100 == 0 then 1 else 0)
    ensures y / 400 - (y - 1) / 400 == (if y % 400 == 0 then 1 else 0)
    ensures y % 400 == 0 ==> y % 100 == 0
    ensures y % 100 == 0 ==> y % 4 == 0
  {
  }

  lemma ModShift(x: int, q: int)
    ensures (x + 7 * q) % 7 == x % 7
  {
  }

  lemma ModAdd(a: int, n: int)
    ensures (a + n) % 7 == (a % 7 + n) % 7
  {
  }

  /** Each year contributes its own length to the ordinal of the next one. */
  lemma DaysBeforeNextYear(y: int)
    ensures DaysBeforeYear(y + 1) == DaysBeforeYear(y) + DaysInYear(y)
  {
    DivSteps(y);
  }

  lemma DaysBeforeYearMonotone(a: int, b: int)
    requires a <= b
    ensures DaysBeforeYear(a) + 365 * (b - a) <= DaysBeforeYear(b)
    decreases b - a
  {
    if a < b {
      DaysBeforeNextYear(a);
      DaysBeforeYearMonotone(a + 1, b);
    }
  }

  /** The ordinal of a valid date lies inside its own year. */
  lemma OrdinalInYear(d: Date)
    requires Valid(d)
    ensures DaysBeforeYear(d.year) < Ordinal(d) <= DaysBeforeYear(d.year + 1)
  {
    DaysBeforeNextYear(d.year);
  }

  lemma NextDayFacts(d: Date)
    requires Valid(d)
    ensures Valid(NextDay(d))
    ensures Ordinal(NextDay(d)) == Ordinal(d) + 1
    ensures PrevDay(NextDay(d)) == d
  {
    if d.day == DaysInMonth(d.year, d.month) && d.month == 12 {
      DaysBeforeNextYear(d.year);
    }
  }

  lemma PrevDayFacts(d: Date)
    requires Valid(d)
    ensures Valid(PrevDay(d))
    ensures NextDay(PrevDay(d)) == d
    ensures Ordinal(PrevDay(d)) == Ordinal(d) - 1
  {
    NextDayFacts(PrevDay(d));
  }

  lemma DaysBeforeMonthStep(y: int, m: int)
    requires 1 <= m < 12
    ensures DaysBeforeMonth(y, m + 1) == DaysBeforeMonth(y, m) + DaysInMonth(y, m)
  {
  }

  lemma {:induction false} DaysBeforeMonthMonotone(y: int, m1: int, m2: int)
    requires 1 <= m1 < m2 <= 12
    ensures DaysBeforeMonth(y, m1) + DaysInMonth(y, m1) <= DaysBeforeMonth(y, m2)
    decreases m2 - m1
  {
    DaysBeforeMonthStep(y, m1);
    if m1 + 1 < m2 {
      DaysBeforeMonthMonotone(y, m1 + 1, m2);
    }
  }

  /** Distinct valid dates have distinct ordinals. */
  lemma OrdinalInjective(a: Date, b: Date)
    requires Valid(a) && Valid(b) && Ordinal(a) == Ordinal(b)
    ensures a == b
  {
    OrdinalInYear(a);
    OrdinalInYear(b);
    if a.year < b.year {
      DaysBeforeYearMonotone(a.year + 1, b.year);
      assert false;
    } else if b.year < a.year {
      DaysBeforeYearMonotone(b.year + 1, a.year);
      assert false;
    }
    if a.month < b.month {
      DaysBeforeMonthMonotone(a.year, a.month, b.month);
    } else if b.month < a.month {
      DaysBeforeMonthMonotone(a.year, b.month, a.month);
    }
  }

  /** `d + timedelta(days=n)` is the one valid date whose ordinal is `n` past `d`'s. */
  lemma AddDaysIs(d: Date, n: int, e: Date)
    requires Valid(d) && Valid(e) && Ordinal(e) == Ordinal(d) + n
    ensures AddDays(d, n) == e
  {
    AddDaysOrdinal(d, n);
    OrdinalInjective(AddDays(d, n), e);
  }

  /** Adding days moves the ordinal by exactly that many days. */
  lemma {:induction false} AddDaysOrdinal(d: Date, n: int)
    requires Valid(d)
    ensures Valid(AddDays(d, n))
    ensures Ordinal(AddDays(d, n)) == Ordinal(d) + n
    decreases if n < 0 then -n else n
  {
    if n > 0 {
      NextDayFacts(d);
      AddDaysOrdinal(NextDay(d), n - 1);
    } else if n < 0 {
      PrevDayFacts(d);
      AddDaysOrdinal(PrevDay(d), n + 1);
    }
  }

  /** Every seventh day is the same weekday. */
  lemma WeekdayAfter(d: Date, n: int)
    requires Valid(d)
    ensures Valid(AddDays(d, n))
    ensures Weekday(AddDays(d, n)) == (Weekday(d) + n) % 7
  {
    AddDaysOrdinal(d, n);
    ModAdd(Ordinal(d) + 6, n);
  }

  /** Stepping back `k` days from day `k` of a month lands on the last day of the previous month. */
  lemma {:induction false} BackToPreviousMonthEnd(y: int, m: int, k: int)
    requires 1 <= m <= 12 && 1 <= k <= DaysInMonth(y, m)
    ensures AddDays(Date(y, m, k), -k) == LastOfPreviousMonth(y, m)
    decreases k
  {
    if k > 1 {
      BackToPreviousMonthEnd(y, m, k - 1);
    }
  }

  function LastOfPreviousMonth(y: int, m: int): Date {
    if m == 1 then Date(y - 1, 12, 31) else Date(y, m - 1, DaysInMonth(y, m - 1))
  }

  /** Year and month of the month after (`y`, `m`), wrapping December into January. */
  function NextMonth(y: int, m: int): (int, int) {
    if m == 12 then (y + 1, 1) else (y, m + 1)
  }

  /** Year and month of the month before (`y`, `m`), wrapping January into December. */
  function PrevMonth(y: int, m: int): (int, int) {
    if m == 1 then (y - 1, 12) else (y, m - 1)
  }

  /** `date(y, m, 28) + timedelta(days=4)` always lands early in the next month. */
  lemma TwentyEighthPlusFour(y: int, m: int)
    requires 1 <= m <= 12
    ensures AddDays(Date(y, m, 28), 4)
         == Date(NextMonth(y, m).0, NextMonth(y, m).1, 32 - DaysInMonth(y, m))
  {
    var d0 := Date(y, m, 28);
    var d1 := NextDay(d0);
    var d2 := NextDay(d1);
    var d3 := NextDay(d2);
    var d4 := NextDay(d3);
    assert AddDays(d0, 4) == AddDays(d1, 3) == AddDays(d2, 2) == AddDays(d3, 1) == AddDays(d4, 0);
  }

  // ---------------------------------------------------------------------
  // ISO 8601 calendar weeks
  // ---------------------------------------------------------------------

  function FirstOfYear(y: int): Date {
    Date(y, 1, 1)
  }

  /** Ordinal of 1 January of year `y` (see `Jan1Ordinal`). */
  function YearStart(y: int): int {
    DaysBeforeYear(y) + 1
  }

  /** Python's `_isoweek1monday`, given the ordinal of 1 January. */
  function Week1MondayFrom(firstday: int): int {
    var firstweekday := (firstday + 6) % 7;
    var week1monday := firstday - firstweekday;
    if firstweekday > 3 then week1monday + 7 else week1monday
  }

  /** Ordinal of the Monday starting ISO week 1 of year `y`. */
  function IsoWeek1Monday(y: int): int {
    Week1MondayFrom(YearStart(y))
  }

  /** The result of `date.isocalendar()`: ISO year, week (1-based) and weekday (Monday is 1). */
  datatype IsoDate = IsoDate(isoYear: int, week: int, weekday: int)

  /** `date.isocalendar()`, step for step as CPython computes it. */
  function IsoCalendar(d: Date): IsoDate
    requires Valid(d)
  {
    var today := Ordinal(d);
    var week1monday := IsoWeek1Monday(d.year);
    var week := (today - week1monday) / 7;
    var day := (today - week1monday) % 7;
    if week < 0 then
      var prevMonday := IsoWeek1Monday(d.year - 1);
      IsoDate(d.year - 1, (today - prevMonday) / 7 + 1, (today - prevMonday) % 7 + 1)
    else if week >= 52 && today >= IsoWeek1Monday(d.year + 1) then
      IsoDate(d.year + 1, 1, day + 1)
    else
      IsoDate(d.year, week + 1, day + 1)
  }

  /** Ordinal of the Thursday in the Monday-to-Sunday week holding ordinal day `t`. */
  function ThursdayOfWeek(t: int): int {
    t - (t + 6) % 7 + 3
  }

  /** Ordinal of the first Thursday on or after the day with ordinal `jan1`. */
  function FirstThursdayFrom(jan1: int): int {
    jan1 + (3 - (jan1 + 6) % 7 + 7) % 7
  }

  /**
   * ISO 8601 calendar week: a Monday-to-Sunday week belongs to the year that
   * holds its Thursday, and week 1 is the week of that year's first Thursday.
   * So day `d` is in week `w` of ISO year `y` exactly when the Thursday of its
   * week falls in year `y` and is that year's `w`-th Thursday.
   */
  ghost predicate InIsoWeek(d: Date, y: int, w: int)
    requires Valid(d)
  {
    IsNthThursday(ThursdayOfWeek(Ordinal(d)), YearStart(y), YearStart(y + 1), w)
  }

  /** `th` is the `w`-th Thursday of the year whose days have ordinals `jan1` up to `nextJan1` (exclusive). */
  predicate IsNthThursday(th: int, jan1: int, nextJan1: int, w: int) {
    jan1 <= th < nextJan1 && th == FirstThursdayFrom(jan1) + 7 * (w - 1)
  }

  lemma MondayFrom(j: int)
    ensures Week1MondayFrom(j) == FirstThursdayFrom(j) - 3
    ensures j - 3 <= Week1MondayFrom(j) <= j + 3
    ensures (Week1MondayFrom(j) + 6) % 7 == 0
  {
    var x := (j + 6) % 7;
    var q := (j + 6) / 7;
    assert j + 6 == 7 * q + x && 0 <= x < 7;
    if x <= 3 {
      assert (3 - x + 7) % 7 == 3 - x;
      assert Week1MondayFrom(j) + 6 == 7 * q;
    } else {
      assert (3 - x + 7) % 7 == 10 - x;
      assert Week1MondayFrom(j) + 6 == 7 * (q + 1);
    }
  }

  /** Week-1 Mondays of consecutive years are 52 or 53 weeks apart. */
  lemma MondayGap(a: int, b: int)
    requires 365 <= b - a <= 366
    ensures Week1MondayFrom(b) - Week1MondayFrom(a) == 364 || Week1MondayFrom(b) - Week1MondayFrom(a) == 371
  {
    MondayFrom(a);
    MondayFrom(b);
    var wa, wb := Week1MondayFrom(a), Week1MondayFrom(b);
    var qa, qb := (wa + 6) / 7, (wb + 6) / 7;
    assert wa + 6 == 7 * qa;
    assert wb + 6 == 7 * qb;
    assert wb - wa == 7 * (qb - qa);
  }

  /** A day between the week-1 Mondays of a year and of the next lies in that ISO year. */
  lemma InIsoYearFrom(t: int, a: int, b: int)
    requires 365 <= b - a <= 366
    requires Week1MondayFrom(a) <= t < Week1MondayFrom(b)
    ensures a <= ThursdayOfWeek(t) < b
    ensures ThursdayOfWeek(t) == FirstThursdayFrom(a) + 7 * ((t - Week1MondayFrom(a)) / 7)
    ensures (t - Week1MondayFrom(a)) % 7 == (t + 6) % 7
    ensures (t - Week1MondayFrom(a)) / 7 <= 52
  {
    MondayFrom(a);
    MondayFrom(b);
    MondayGap(a, b);
    var w1 := Week1MondayFrom(a);
    var k, r := (t - w1) / 7, (t - w1) % 7;
    assert t - w1 == 7 * k + r && 0 <= r < 7;
    var q := (w1 + 6) / 7;
    assert w1 + 6 == 7 * q;
    assert t + 6 == 7 * (q + k) + r;
    assert (t + 6) % 7 == r;
    assert ThursdayOfWeek(t) == w1 + 7 * k + 3;
  }

  /** What `IsoWeekArithmetic` establishes, in each of the three cases of `IsoFromMondays`. */
  predicate IsoWeekArithmeticHolds(t: int, j0: int, j1: int, j2: int, j3: int) {
    var w1 := Week1MondayFrom(j1);
      if t < w1 then
        j0 <= ThursdayOfWeek(t) < j1
        && ThursdayOfWeek(t) == FirstThursdayFrom(j0) + 7 * ((t - Week1MondayFrom(j0)) / 7)
        && 0 <= (t - Week1MondayFrom(j0)) / 7 <= 52
        && (t - Week1MondayFrom(j0)) % 7 == (t + 6) % 7
      else if (t - w1) / 7 >= 52 && t >= Week1MondayFrom(j2) then
        j2 <= ThursdayOfWeek(t) < j3
        && ThursdayOfWeek(t) == FirstThursdayFrom(j2)
        && (t - w1) % 7 == (t + 6) % 7
      else
        j1 <= ThursdayOfWeek(t) < j2
        && ThursdayOfWeek(t) == FirstThursdayFrom(j1) + 7 * ((t - w1) / 7)
        && 0 <= (t - w1) / 7 <= 52
        && (t - w1) % 7 == (t + 6) % 7
  }

  /** The arithmetic core of `IsoCalendarIsIso8601`, over the ordinals of three consecutive 1 Januaries. */
  lemma IsoWeekArithmetic(t: int, j0: int, j1: int, j2: int, j3: int)
    requires 365 <= j1 - j0 <= 366 && 365 <= j2 - j1 <= 366 && 365 <= j3 - j2 <= 366
    requires j1 <= t < j2
    ensures IsoWeekArithmeticHolds(t, j0, j1, j2, j3)
  {
    MondayFrom(j0);
    MondayFrom(j1);
    MondayFrom(j2);
    MondayFrom(j3);
    MondayGap(j0, j1);
    MondayGap(j1, j2);
    MondayGap(j2, j3);
    var w1 := Week1MondayFrom(j1);
    if t < w1 {
      InIsoYearFrom(t, j0, j1);
    } else if (t - w1) / 7 >= 52 && t >= Week1MondayFrom(j2) {
      InIsoYearFrom(t, j2, j3);
    } else {
      InIsoYearFrom(t, j1, j2);
    }
  }

  lemma Jan1Ordinal(y: int)
    ensures Valid(FirstOfYear(y)) && Ordinal(FirstOfYear(y)) == YearStart(y)
  {
  }

  lemma Jan1Gap(y: int)
    ensures 365 <= YearStart(y + 1) - YearStart(y) <= 366
  {
    Jan1Ordinal(y);
    Jan1Ordinal(y + 1);
    DaysBeforeNextYear(y);
  }

  /** The three cases of `IsoCalendar`, over the ordinal `t` of the day and the week-1 Mondays of years `y - 1`, `y`, `y + 1`. */
  function IsoFromMondays(t: int, y: int, m0: int, m1: int, m2: int): IsoDate {
    if t < m1 then IsoDate(y - 1, (t - m0) / 7 + 1, (t - m0) % 7 + 1)
    else if (t - m1) / 7 >= 52 && t >= m2 then IsoDate(y + 1, 1, (t - m1) % 7 + 1)
    else IsoDate(y, (t - m1) / 7 + 1, (t - m1) % 7 + 1)
  }

  lemma IsoCalendarByMondays(d: Date)
    requires Valid(d)
    ensures IsoCalendar(d) == IsoFromMondays(Ordinal(d), d.year, Week1MondayFrom(YearStart(d.year - 1)),
                                             Week1MondayFrom(YearStart(d.year)),
                                             Week1MondayFrom(YearStart(d.year + 1)))
  {
    WeekIndexNegative(Ordinal(d), IsoWeek1Monday(d.year));
  }

  /** A day before a week's Monday has a negative week index counted from that Monday. */
  lemma WeekIndexNegative(t: int, m: int)
    ensures (t - m) / 7 < 0 <==> t < m
  {
  }

  /** `IsoWeekArithmetic` for the years around `y`, with `t` a day of year `y`. */
  lemma IsoWeekArithmeticAt(t: int, y: int)
    requires YearStart(y) <= t < YearStart(y + 1)
    ensures IsoWeekArithmeticHolds(t, YearStart(y - 1), YearStart(y),
                                   YearStart(y + 1), YearStart(y + 2))
  {
    Jan1Gap(y - 1);
    Jan1Gap(y);
    Jan1Gap(y + 1);
    IsoWeekArithmetic(t, YearStart(y - 1), YearStart(y),
                      YearStart(y + 1), YearStart(y + 2));
  }

  /** `IsoFromMondays` picks the year holding the Thursday of the week, and numbers that Thursday. */
  lemma IsoFromMondaysCorrect(t: int, y: int, j0: int, j1: int, j2: int, j3: int)
    requires IsoWeekArithmeticHolds(t, j0, j1, j2, j3)
    ensures var r := IsoFromMondays(t, y, Week1MondayFrom(j0), Week1MondayFrom(j1), Week1MondayFrom(j2));
      var th := ThursdayOfWeek(t);
      && 1 <= r.week <= 53
      && r.weekday == (t + 6) % 7 + 1
      && ((r.isoYear == y - 1 && IsNthThursday(th, j0, j1, r.week))
          || (r.isoYear == y && IsNthThursday(th, j1, j2, r.week))
          || (r.isoYear == y + 1 && IsNthThursday(th, j2, j3, r.week)))
  {
  }

  /** `IsoFromMondays` over three consecutive year gaps, with `t` in the middle year, as the ISO rule places it. */
  lemma IsoFromJan1s(t: int, y: int, j0: int, j1: int, j2: int, j3: int, r: IsoDate)
    requires 365 <= j1 - j0 <= 366 && 365 <= j2 - j1 <= 366 && 365 <= j3 - j2 <= 366
    requires j1 <= t < j2
    requires r == IsoFromMondays(t, y, Week1MondayFrom(j0), Week1MondayFrom(j1), Week1MondayFrom(j2))
    ensures var th := ThursdayOfWeek(t);
      && 1 <= r.week <= 53
      && r.weekday == (t + 6) % 7 + 1
      && y - 1 <= r.isoYear <= y + 1
      && (r.isoYear == y - 1 ==> IsNthThursday(th, j0, j1, r.week))
      && (r.isoYear == y ==> IsNthThursday(th, j1, j2, r.week))
      && (r.isoYear == y + 1 ==> IsNthThursday(th, j2, j3, r.week))
  {
    IsoWeekArithmetic(t, j0, j1, j2, j3);
    IsoFromMondaysCorrect(t, y, j0, j1, j2, j3);
  }

  /** A valid date's ordinal lies between the 1 Januaries of its year and the next. */
  lemma DayInYear(d: Date)
    requires Valid(d)
    ensures YearStart(d.year) <= Ordinal(d) < YearStart(d.year + 1)
  {
    OrdinalInYear(d);
  }

  /** `IsoFromMondays` for a day `t` of year `y`, stated over the 1 Januaries of the years around it. */
  lemma IsoCasesInYear(t: int, y: int, r: IsoDate)
    requires YearStart(y) <= t < YearStart(y + 1)
    requires r == IsoFromMondays(t, y, Week1MondayFrom(YearStart(y - 1)), Week1MondayFrom(YearStart(y)),
                                 Week1MondayFrom(YearStart(y + 1)))
    ensures var th := ThursdayOfWeek(t);
      && 1 <= r.week <= 53
      && y - 1 <= r.isoYear <= y + 1
      && (r.isoYear == y - 1 ==> IsNthThursday(th, YearStart(y - 1), YearStart(y), r.week))
      && (r.isoYear == y ==> IsNthThursday(th, YearStart(y), YearStart(y + 1), r.week))
      && (r.isoYear == y + 1 ==> IsNthThursday(th, YearStart(y + 1), YearStart(y + 2), r.week))
  {
    Jan1Gap(y - 1);
    Jan1Gap(y);
    Jan1Gap(y + 1);
    IsoFromJan1s(t, y, YearStart(y - 1), YearStart(y), YearStart(y + 1), YearStart(y + 2), r);
  }

  lemma WeekdayOfOrdinal(d: Date)
    requires Valid(d)
    ensures Weekday(d) == (Ordinal(d) + 6) % 7
  {
  }

  /** `date.isocalendar()` computes the ISO 8601 calendar week, numbered 1 to 53. */
  lemma IsoCalendarIsIso8601(d: Date)
    requires Valid(d)
    ensures InIsoWeek(d, IsoCalendar(d).isoYear, IsoCalendar(d).week)
    ensures 1 <= IsoCalendar(d).week <= 53
    ensures IsoCalendar(d).weekday == Weekday(d) + 1
    ensures d.year - 1 <= IsoCalendar(d).isoYear <= d.year + 1
  {
    DayInYear(d);
    IsoCalendarByMondays(d);
    IsoWeekInYear(Ordinal(d), d.year, IsoCalendar(d));
    IsoCalendarWeekday(d);
  }

  /** `IsoCasesInYear`, stated for the ISO year `r` names. */
  lemma IsoWeekInYear(t: int, y: int, r: IsoDate)
    requires YearStart(y) <= t < YearStart(y + 1)
    requires r == IsoFromMondays(t, y, Week1MondayFrom(YearStart(y - 1)), Week1MondayFrom(YearStart(y)),
                                 Week1MondayFrom(YearStart(y + 1)))
    ensures 1 <= r.week <= 53 && y - 1 <= r.isoYear <= y + 1
    ensures IsNthThursday(ThursdayOfWeek(t), YearStart(r.isoYear), YearStart(r.isoYear + 1), r.week)
  {
    IsoCasesInYear(t, y, r);
    NthThursdayOfIsoYear(ThursdayOfWeek(t), y, r.isoYear, r.week);
  }

  /** The case of `IsoCasesInYear` that holds, stated for the ISO year itself. */
  lemma NthThursdayOfIsoYear(th: int, y: int, iy: int, w: int)
    requires y - 1 <= iy <= y + 1
    requires iy == y - 1 ==> IsNthThursday(th, YearStart(y - 1), YearStart(y), w)
    requires iy == y ==> IsNthThursday(th, YearStart(y), YearStart(y + 1), w)
    requires iy == y + 1 ==> IsNthThursday(th, YearStart(y + 1), YearStart(y + 2), w)
    ensures IsNthThursday(th, YearStart(iy), YearStart(iy + 1), w)
  {
    if iy == y - 1 {
      assert iy + 1 == y;
    } else if iy == y + 1 {
      assert iy + 1 == y + 2;
    }
  }

  /** The ISO weekday counts from Monday as 1, whatever the week number. */
  lemma IsoCalendarWeekday(d: Date)
    requires Valid(d)
    ensures IsoCalendar(d).weekday == Weekday(d) + 1
  {
    IsoCalendarByMondays(d);
    WeekdayOfOrdinal(d);
    IsoFromMondaysWeekday(Ordinal(d), d.year, Weekday(d), IsoCalendar(d));
  }

  /** Counted from a week-1 Monday, the day of the week is the weekday counted from Monday as 1. */
  lemma IsoFromMondaysWeekday(t: int, y: int, wd: int, r: IsoDate)
    requires wd == (t + 6) % 7
    requires r == IsoFromMondays(t, y, Week1MondayFrom(YearStart(y - 1)), Week1MondayFrom(YearStart(y)),
                                 Week1MondayFrom(YearStart(y + 1)))
    ensures r.weekday == wd + 1
  {
    MondayFrom(YearStart(y - 1));
    MondayFrom(YearStart(y));
    FromMonday(t, Week1MondayFrom(YearStart(y - 1)));
    FromMonday(t, Week1MondayFrom(YearStart(y)));
  }

  lemma FromMonday(t: int, m: int)
    requires (m + 6) % 7 == 0
    ensures (t - m) % 7 == (t + 6) % 7
  {
    var q := (m + 6) / 7;
    assert m == 7 * q - 6;
    assert t - m == (t + 6) - 7 * q;
  }

  lemma Jan1Monotone(a: int, b: int)
    requires a < b
    ensures YearStart(a + 1) <= YearStart(b)
  {
    Jan1Ordinal(a + 1);
    Jan1Ordinal(b);
    DaysBeforeYearMonotone(a + 1, b);
  }

  /** A day lies in at most one ISO week. */
  lemma IsoWeekUnique(d: Date, a: int, u: int, b: int, v: int)
    requires Valid(d) && InIsoWeek(d, a, u) && InIsoWeek(d, b, v)
    ensures a == b && u == v
  {
    if a < b {
      Jan1Monotone(a, b);
    } else if b < a {
      Jan1Monotone(b, a);
    }
  }

  /** `IsoCalendar` returns exactly the ISO year and week the day belongs to. */
  lemma IsoCalendarExactly(d: Date, y: int, w: int)
    requires Valid(d)
    ensures InIsoWeek(d, y, w) <==> IsoCalendar(d).isoYear == y && IsoCalendar(d).week == w
  {
    IsoCalendarIsIso8601(d);
    if InIsoWeek(d, y, w) {
      IsoWeekUnique(d, y, w, IsoCalendar(d).isoYear, IsoCalendar(d).week);
    }
  }

  /** 2020 began on a Wednesday, so its last day falls in week 53, and so does 3 January 2021. */
  lemma IsoWeek53Example()
    ensures IsoCalendar(Date(2020, 12, 31)) == IsoDate(2020, 53, 4)
    ensures IsoCalendar(Date(2021, 1, 3)) == IsoDate(2020, 53, 7)
  {
    assert DaysBeforeYear(2020) == 737424;
    assert DaysBeforeYear(2021) == 737790;
    assert DaysBeforeYear(2022) == 738155;
    assert IsoWeek1Monday(2020) == 737423;
    assert IsoWeek1Monday(2021) == 737794;
  }

  /** 30 December 2024 is a Monday whose week holds 2 January 2025, so it is day 1 of week 1 of 2025. */
  lemma IsoNextYearExample()
    ensures IsoCalendar(Date(2024, 12, 30)) == IsoDate(2025, 1, 1)
  {
    assert DaysBeforeYear(2024) == 738885;
    assert DaysBeforeYear(2025) == 739251;
    assert IsoWeek1Monday(2024) == 738886;
    assert IsoWeek1Monday(2025) == 739250;
  }
}
