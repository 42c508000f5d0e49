/**
 * The date arithmetic of `TimeClass`: the week, month and year around a
 * reference day (computed in place into the object's fields), and the week
 * or month picked by number (pure functions returning a record).
 */
module ComputeTime {
  import opened Wrappers
  import opened Dates

  // ---------------------------------------------------------------------
  // `datetime.date(...)` and `date.replace(...)`, which raise ValueError
  // ---------------------------------------------------------------------

  /** `datetime.date(y, m, d)`: the date, or the ValueError it raises. */
  function MakeDate(y: int, m: int, d: int): (r: Result<Date, string>)
    ensures r.Ok? <==> 1 <= m <= 12 && 1 <= d <= DaysInMonth(y, m)
    ensures r.Ok? ==> Valid(r.value) && r.value == Date(y, m, d)
  {
    if !(1 <= m <= 12) then Err("month must be in 1..12")
    else if !(1 <= d <= DaysInMonth(y, m)) then Err("day is out of range for month")
    else Ok(Date(y, m, d))
  }

  /** `d.replace(day=k)`. */
  function ReplaceDay(d: Date, k: int): (r: Result<Date, string>)
    requires Valid(d)
    ensures r.Ok? <==> 1 <= k <= DaysInMonth(d.year, d.month)
    ensures r.Ok? ==> Valid(r.value) && r.value == Date(d.year, d.month, k)
  {
    MakeDate(d.year, d.month, k)
  }

  // ---------------------------------------------------------------------
  // The reference day's week, month and year
  // ---------------------------------------------------------------------

  /** `d - timedelta(days=d.weekday())` is the Monday on or before `d`. */
  lemma MondayOnOrBefore(d: Date)
    requires Valid(d)
    ensures var b := AddDays(d, -Weekday(d));
      && Valid(b) && Weekday(b) == 0 && Ordinal(b) == Ordinal(d) - Weekday(d)
      && Ordinal(b) <= Ordinal(d) < Ordinal(b) + 7
  {
    WeekdayAfter(d, -Weekday(d));
    AddDaysOrdinal(d, -Weekday(d));
  }

  /**
   * `w` is the ISO number of the week holding `d`, `b` that week's Monday on
   * or before `d`, and `e` the Sunday six days after `b`.
   */
  ghost predicate WeekFacts(d: Date, w: int, b: Date, e: Date)
    requires Valid(d)
  {
    && w == IsoCalendar(d).week
    && InIsoWeek(d, IsoCalendar(d).isoYear, w)
    && 1 <= w <= 53
    && Valid(b) && Weekday(b) == 0
    && Ordinal(b) <= Ordinal(d) < Ordinal(b) + 7
    && Valid(e) && Ordinal(e) == Ordinal(b) + 6
  }

  /** The week of `d` as `cmp_week` computes it: its ISO number, its Monday and the Sunday six days later. */
  method WeekOfDay(d: Date) returns (weekNb: int, weekBeg: Date, weekEnd: Date)
    requires Valid(d)
    ensures WeekFacts(d, weekNb, weekBeg, weekEnd)
  {
    weekBeg := AddDays(d, -Weekday(d));
    weekEnd := AddDays(weekBeg, 6);
    weekNb := IsoCalendar(d).week;
    IsoCalendarIsIso8601(d);
    MondayOnOrBefore(d);
    AddDaysOrdinal(weekBeg, 6);
  }

  /** `d.replace(day=28) + timedelta(days=4)`, stepped back by its own day number, is the month's last day. */
  lemma MonthEndIsLastDay(y: int, m: int)
    requires 1 <= m <= 12
    ensures var t := AddDays(Date(y, m, 28), 4);
      AddDays(t, -t.day) == Date(y, m, DaysInMonth(y, m))
  {
    TwentyEighthPlusFour(y, m);
    var (ny, nm) := NextMonth(y, m);
    BackToPreviousMonthEnd(ny, nm, 32 - DaysInMonth(y, m));
  }

  class TimeClass {
    var day: Date
    var weekNb: int
    var weekBeg: Date
    var weekEnd: Date
    var monthNb: int
    var monthBeg: Date
    var monthEnd: Date
    var yearNb: int
    var yearBeg: Date
    var yearEnd: Date

    /** What `run` leaves behind: every boundary field describes `day`. */
    ghost predicate Computed()
      reads this
    {
      && Valid(day)
      && WeekComputed() && MonthComputed() && YearComputed()
    }

    ghost predicate WeekComputed()
      reads this
      requires Valid(day)
    {
      WeekFacts(day, weekNb, weekBeg, weekEnd)
    }

    ghost predicate MonthComputed()
      reads this
    {
      && monthNb == day.month
      && monthBeg == Date(day.year, day.month, 1)
      && monthEnd == Date(day.year, day.month, DaysInMonth(day.year, day.month))
    }

    ghost predicate YearComputed()
      reads this
    {
      && yearNb == day.year
      && yearBeg == Date(day.year, 1, 1)
      && yearEnd == Date(day.year, 12, 31)
    }

    constructor (day: Date)
      requires Valid(day)
      ensures this.day == day && Computed()
    {
      this.day := day;
      new;
      Run();
    }

    /** The date part of `run`: week, month and year. */
    method Run()
      requires Valid(day)
      modifies this
      ensures day == old(day) && Computed()
    {
      CmpWeek();
      CmpMonth();
      CmpYear();
    }

    method CmpWeek()
      requires Valid(day)
      modifies this
      ensures day == old(day) && WeekComputed()
      ensures monthNb == old(monthNb) && monthBeg == old(monthBeg) && monthEnd == old(monthEnd)
      ensures yearNb == old(yearNb) && yearBeg == old(yearBeg) && yearEnd == old(yearEnd)
    {
      weekNb, weekBeg, weekEnd := WeekOfDay(day);
    }

    method CmpMonth()
      requires Valid(day)
      modifies this
      ensures day == old(day) && MonthComputed()
      ensures weekNb == old(weekNb) && weekBeg == old(weekBeg) && weekEnd == old(weekEnd)
      ensures yearNb == old(yearNb) && yearBeg == old(yearBeg) && yearEnd == old(yearEnd)
    {
      monthNb := day.month;
      monthBeg := Date(day.year, day.month, 1);
      var t := AddDays(Date(day.year, day.month, 28), 4);
      monthEnd := AddDays(t, -t.day);
      MonthEndIsLastDay(day.year, day.month);
    }

    method CmpYear()
      requires Valid(day)
      modifies this
      ensures day == old(day) && YearComputed()
      ensures weekNb == old(weekNb) && weekBeg == old(weekBeg) && weekEnd == old(weekEnd)
      ensures monthNb == old(monthNb) && monthBeg == old(monthBeg) && monthEnd == old(monthEnd)
    {
      yearNb := day.year;
      yearBeg := Date(day.year, 1, 1);
      yearEnd := Date(day.year, 12, 31);
    }
  }

  // ---------------------------------------------------------------------
  // Weeks by number
  // ---------------------------------------------------------------------

  datatype WeekInfo = WeekInfo(year: int, weekNb: int, weekBeg: Date, weekEnd: Date)

  /**
   * `cmp_week_by_number`, as written: week 1 starts on the Monday on or
   * before 1 January, whatever weekday 1 January falls on.
   */
  function CmpWeekByNumber(year: int, week: int): WeekInfo {
    var firstDayOfYear := Date(year, 1, 1);
    var firstWeekBeg := AddDays(firstDayOfYear, -Weekday(firstDayOfYear));
    var weekBeg := AddDays(firstWeekBeg, 7 * (week - 1));
    WeekInfo(year, week, weekBeg, AddDays(weekBeg, 6))
  }

  /** The week it returns is a Monday-to-Sunday week, `week - 1` weeks after the one holding 1 January. */
  lemma CmpWeekByNumberSpec(year: int, week: int)
    ensures var r := CmpWeekByNumber(year, week);
      var jan1 := Date(year, 1, 1);
      && r.year == year && r.weekNb == week
      && Valid(r.weekBeg) && Weekday(r.weekBeg) == 0
      && Ordinal(r.weekBeg) == Ordinal(jan1) - Weekday(jan1) + 7 * (week - 1)
      && 0 <= Weekday(jan1) < 7
      && Valid(r.weekEnd) && Ordinal(r.weekEnd) == Ordinal(r.weekBeg) + 6
  {
    var jan1 := Date(year, 1, 1);
    MondayOnOrBefore(jan1);
    var first := AddDays(jan1, -Weekday(jan1));
    MondayPlusWeeks(first, week - 1);
    var beg := AddDays(first, 7 * (week - 1));
    assert CmpWeekByNumber(year, week) == WeekInfo(year, week, beg, AddDays(beg, 6));
  }

  /** Whole weeks after a Monday is a Monday, and the Sunday six days later ends its week. */
  lemma MondayPlusWeeks(first: Date, n: int)
    requires Valid(first) && Weekday(first) == 0
    ensures var b := AddDays(first, 7 * n);
      && Valid(b) && Weekday(b) == 0 && Ordinal(b) == Ordinal(first) + 7 * n
      && Valid(AddDays(b, 6)) && Ordinal(AddDays(b, 6)) == Ordinal(b) + 6
  {
    AddDaysOrdinal(first, 7 * n);
    WeekdayAfter(first, 7 * n);
    ModShift(0, n);
    AddDaysOrdinal(AddDays(first, 7 * n), 6);
  }

  /** Week `w + 1` starts the day after week `w` ends. */
  lemma CmpWeekByNumberConsecutive(year: int, week: int)
    ensures Valid(CmpWeekByNumber(year, week).weekEnd)
    ensures CmpWeekByNumber(year, week + 1).weekBeg == NextDay(CmpWeekByNumber(year, week).weekEnd)
  {
    CmpWeekByNumberSpec(year, week);
    CmpWeekByNumberSpec(year, week + 1);
    var e, b := CmpWeekByNumber(year, week).weekEnd, CmpWeekByNumber(year, week + 1).weekBeg;
    NextDayFacts(e);
    assert Ordinal(b) == Ordinal(NextDay(e));
    OrdinalInjective(b, NextDay(e));
  }

  /** Week 10 of 2024 runs from Monday 4 March to Sunday 10 March. */
  lemma CmpWeekByNumberExample()
    ensures CmpWeekByNumber(2024, 10).weekBeg == Date(2024, 3, 4)
    ensures CmpWeekByNumber(2024, 10).weekEnd == Date(2024, 3, 10)
  {
    var jan1 := Date(2024, 1, 1);
    assert DaysBeforeYear(2024) == 738885;
    assert Weekday(jan1) == 0;
    assert AddDays(jan1, 0) == jan1;
    AddDaysIs(jan1, 63, Date(2024, 3, 4));
    AddDaysIs(Date(2024, 3, 4), 6, Date(2024, 3, 10));
  }

  /** `get_week_by_number`: the week `shift` weeks after week `week`. */
  function GetWeekByNumber(year: int, week: int, shift: int): WeekInfo {
    CmpWeekByNumber(year, week + shift)
  }

  /** Shifting by `shift` weeks moves both boundaries by `7 * shift` days and renumbers the week. */
  lemma GetWeekByNumberShift(year: int, week: int, shift: int)
    ensures var r, base := GetWeekByNumber(year, week, shift), CmpWeekByNumber(year, week);
      && Valid(r.weekBeg) && Valid(base.weekBeg)
      && r.weekNb == week + shift
      && Ordinal(r.weekBeg) == Ordinal(base.weekBeg) + 7 * shift
  {
    WeekBegOrdinal(year, week);
    WeekBegOrdinal(year, week + shift);
  }

  /** Where `cmp_week_by_number` puts the start of a week: `7 * (week - 1)` days after the first Monday it uses. */
  lemma WeekBegOrdinal(year: int, week: int)
    ensures Valid(CmpWeekByNumber(year, week).weekBeg)
    ensures Ordinal(CmpWeekByNumber(year, week).weekBeg) == Ordinal(Date(year, 1, 1)) - Weekday(Date(year, 1, 1)) + 7 * (week - 1)
  {
    CmpWeekByNumberSpec(year, week);
  }

  /** 2021 began on a Friday, so week 1 as written starts on 28 December 2020, in ISO week 53 of 2020. */
  lemma CmpWeekByNumberNotIso()
    ensures CmpWeekByNumber(2021, 1).weekBeg == Date(2020, 12, 28)
    ensures IsoCalendar(Date(2020, 12, 28)) == IsoDate(2020, 53, 1)
  {
    var jan1 := Date(2021, 1, 1);
    assert DaysBeforeYear(2020) == 737424;
    assert DaysBeforeYear(2021) == 737790;
    assert DaysBeforeYear(2022) == 738155;
    assert Weekday(jan1) == 4;
    AddDaysIs(jan1, -4, Date(2020, 12, 28));
    assert IsoWeek1Monday(2020) == 737423;
    assert IsoWeek1Monday(2021) == 737794;
  }

  /** Week `week` of ISO year `year`: counted from the Monday of the week holding the year's first Thursday. */
  function IsoWeekByNumber(year: int, week: int): WeekInfo {
    var firstDayOfYear := Date(year, 1, 1);
    var week1Monday := AddDays(firstDayOfYear, IsoWeek1Monday(year) - Ordinal(firstDayOfYear));
    var weekBeg := AddDays(week1Monday, 7 * (week - 1));
    WeekInfo(year, week, weekBeg, AddDays(weekBeg, 6))
  }

  lemma IsoWeekByNumberOrdinals(year: int, week: int)
    ensures var r := IsoWeekByNumber(year, week);
      && Valid(r.weekBeg) && Ordinal(r.weekBeg) == IsoWeek1Monday(year) + 7 * (week - 1)
      && Valid(r.weekEnd) && Ordinal(r.weekEnd) == Ordinal(r.weekBeg) + 6
  {
    var jan1 := Date(year, 1, 1);
    var m1 := IsoWeek1Monday(year);
    AddDaysOrdinal(jan1, m1 - Ordinal(jan1));
    var first := AddDays(jan1, m1 - Ordinal(jan1));
    AddDaysOrdinal(first, 7 * (week - 1));
    var beg := AddDays(first, 7 * (week - 1));
    AddDaysOrdinal(beg, 6);
    assert IsoWeek1Monday(year) == m1;
    assert IsoWeekByNumber(year, week) == WeekInfo(year, week, beg, AddDays(beg, 6));
  }

  /** Day `k` (from 0) of the week starting `week - 1` weeks after the week-1 Monday falls on the `week`-th Thursday's week. */
  lemma NthWeekThursday(t: int, k: int, j: int, nextJan1: int, week: int)
    requires 1 <= week && 0 <= k < 7 && t == Week1MondayFrom(j) + 7 * (week - 1) + k
    requires FirstThursdayFrom(j) + 7 * (week - 1) < nextJan1
    ensures (t + 6) % 7 == k
    ensures IsNthThursday(ThursdayOfWeek(t), j, nextJan1, week)
  {
    MondayFrom(j);
    var m1 := Week1MondayFrom(j);
    var q := (m1 + 6) / 7;
    assert m1 + 6 == 7 * q;
    assert t + 6 == 7 * (q + week - 1) + k;
  }

  /** Every day of a week the ISO year has (its Thursday still in the year) is in that ISO week. */
  lemma IsoWeekDay(year: int, week: int, k: int, d: Date)
    requires 1 <= week && 0 <= k < 7
    requires FirstThursdayFrom(YearStart(year)) + 7 * (week - 1) < YearStart(year + 1)
    requires Valid(d) && Ordinal(d) == IsoWeek1Monday(year) + 7 * (week - 1) + k
    ensures IsoCalendar(d) == IsoDate(year, week, k + 1)
  {
    InNumberedWeek(year, week, k, d);
    IsoCalendarExactly(d, year, week);
    IsoCalendarWeekday(d);
    WeekdayOfOrdinal(d);
  }

  /** Day `k` of the numbered week lies in that ISO week, `k` days after its Monday. */
  lemma InNumberedWeek(year: int, week: int, k: int, d: Date)
    requires 1 <= week && 0 <= k < 7
    requires FirstThursdayFrom(YearStart(year)) + 7 * (week - 1) < YearStart(year + 1)
    requires Valid(d) && Ordinal(d) == IsoWeek1Monday(year) + 7 * (week - 1) + k
    ensures InIsoWeek(d, year, week) && (Ordinal(d) + 6) % 7 == k
  {
    NthWeekThursday(Ordinal(d), k, YearStart(year), YearStart(year + 1), week);
  }

  /** `IsoWeekByNumber` returns the Monday and the Sunday of that ISO week, and the days from its Monday on are that week's days in order. */
  lemma IsoWeekByNumberIsIso(year: int, week: int)
    requires 1 <= week
    requires FirstThursdayFrom(YearStart(year)) + 7 * (week - 1) < YearStart(year + 1)
    ensures var r := IsoWeekByNumber(year, week);
      && Valid(r.weekBeg) && IsoCalendar(r.weekBeg) == IsoDate(year, week, 1)
      && Valid(r.weekEnd) && IsoCalendar(r.weekEnd) == IsoDate(year, week, 7)
    ensures var r := IsoWeekByNumber(year, week);
      forall k :: 0 <= k < 7 ==>
        Valid(AddDays(r.weekBeg, k)) && IsoCalendar(AddDays(r.weekBeg, k)) == IsoDate(year, week, k + 1)
  {
    var r := IsoWeekByNumber(year, week);
    IsoWeekByNumberOrdinals(year, week);
    IsoWeekDay(year, week, 0, r.weekBeg);
    IsoWeekDay(year, week, 6, r.weekEnd);
    forall k | 0 <= k < 7
      ensures Valid(AddDays(r.weekBeg, k)) && IsoCalendar(AddDays(r.weekBeg, k)) == IsoDate(year, week, k + 1)
    {
      AddDaysOrdinal(r.weekBeg, k);
      IsoWeekDay(year, week, k, AddDays(r.weekBeg, k));
    }
  }

  // ---------------------------------------------------------------------
  // Months by number
  // ---------------------------------------------------------------------

  datatype MonthInfo = MonthInfo(year: int, monthNb: int, monthBeg: Date, monthEnd: Date)

  /**
   * `cmp_month_by_number`, step for step. From the 15th on, the start is
   * stepped back a month; before the 15th the end is moved into the next month.
   */
  function CmpMonthByNumber(year: int, month: int, monthStartDay: int): Result<MonthInfo, string> {
    var start :- MakeDate(year, month, monthStartDay);
    if monthStartDay >= 15 then
      var back := AddDays(start, -monthStartDay);
      AddDaysOrdinal(start, -monthStartDay);
      var monthBeg :- ReplaceDay(back, monthStartDay);
      var on28 :- ReplaceDay(monthBeg, 28);
      var after := AddDays(on28, 4);
      AddDaysOrdinal(on28, 4);
      var monthEnd :- ReplaceDay(after, monthStartDay);
      Ok(MonthInfo(year, month, monthBeg, monthEnd))
    else
      var on28 :- ReplaceDay(start, 28);
      var after := AddDays(on28, 4);
      AddDaysOrdinal(on28, 4);
      var monthEnd :- ReplaceDay(after, monthStartDay);
      Ok(MonthInfo(year, month, start, monthEnd))
  }

  /**
   * The period is defined exactly when `date(year, month, s)` exists and, from
   * the 15th on, day `s` also exists in the previous month. It then runs from
   * day `s` of one month to day `s` of the next: from the previous month to
   * this one when `s >= 15`, from this month to the next otherwise.
   */
  lemma CmpMonthByNumberSpec(year: int, month: int, s: int)
    ensures var r := CmpMonthByNumber(year, month, s);
      var (py, pm) := PrevMonth(year, month);
      var (ny, nm) := NextMonth(year, month);
      && (r.Ok? <==> 1 <= month <= 12 && 1 <= s <= DaysInMonth(year, month)
                     && (s >= 15 ==> s <= DaysInMonth(py, pm)))
      && (r.Ok? ==> r.value.year == year && r.value.monthNb == month && r.value.monthBeg.day == s)
      && (r.Ok? && s >= 15 ==> r.value.monthBeg == Date(py, pm, s) && r.value.monthEnd == Date(year, month, s))
      && (r.Ok? && s < 15 ==> r.value.monthBeg == Date(year, month, s) && r.value.monthEnd == Date(ny, nm, s))
  {
    if 1 <= month <= 12 && 1 <= s <= DaysInMonth(year, month) {
      if s >= 15 {
        CmpMonthByNumberLate(year, month, s);
      } else {
        CmpMonthByNumberEarly(year, month, s);
      }
    }
  }

  /** A start day of 15 or later: the period from that day of the previous month, when it has one. */
  lemma CmpMonthByNumberLate(year: int, month: int, s: int)
    requires 1 <= month <= 12 && 15 <= s <= DaysInMonth(year, month)
    ensures var r := CmpMonthByNumber(year, month, s);
      var (py, pm) := PrevMonth(year, month);
      && (r.Ok? <==> s <= DaysInMonth(py, pm))
      && (r.Ok? ==> r.value == MonthInfo(year, month, Date(py, pm, s), Date(year, month, s)))
  {
    var (py, pm) := PrevMonth(year, month);
    BackToPreviousMonthEnd(year, month, s);
    if s <= DaysInMonth(py, pm) {
      TwentyEighthPlusFour(py, pm);
    }
  }

  /** A start day before 15: the period from that day of this month to that day of the next. */
  lemma CmpMonthByNumberEarly(year: int, month: int, s: int)
    requires 1 <= month <= 12 && 1 <= s < 15
    ensures var (ny, nm) := NextMonth(year, month);
      CmpMonthByNumber(year, month, s) == Ok(MonthInfo(year, month, Date(year, month, s), Date(ny, nm, s)))
  {
    TwentyEighthPlusFour(year, month);
  }

  /** With a fixed start day, each month's period ends where the next month's begins. */
  lemma CmpMonthByNumberChains(year: int, month: int, s: int)
    requires 1 <= month < 12
    requires CmpMonthByNumber(year, month, s).Ok? && CmpMonthByNumber(year, month + 1, s).Ok?
    ensures CmpMonthByNumber(year, month, s).value.monthEnd == CmpMonthByNumber(year, month + 1, s).value.monthBeg
  {
    CmpMonthByNumberSpec(year, month, s);
    CmpMonthByNumberSpec(year, month + 1, s);
  }

  /** Day 30 exists in March but not in February, so a period starting on the 30th has no March. */
  lemma CmpMonthByNumberMarch30()
    ensures CmpMonthByNumber(2024, 3, 30).Err?
    ensures CmpMonthByNumber(2024, 3, 15) == Ok(MonthInfo(2024, 3, Date(2024, 2, 15), Date(2024, 3, 15)))
  {
    CmpMonthByNumberSpec(2024, 3, 30);
    CmpMonthByNumberSpec(2024, 3, 15);
  }

  /** `get_month_by_number`: the month `shift` months after `month`, with no wrap into another year. */
  function GetMonthByNumber(year: int, month: int, monthStartDay: int, shift: int): Result<MonthInfo, string> {
    CmpMonthByNumber(year, month + shift, monthStartDay)
  }

  /** A shift leaving 1..12 is refused rather than carried into the next or previous year. */
  lemma GetMonthByNumberNoWrap(year: int, month: int, monthStartDay: int, shift: int)
    ensures var r := GetMonthByNumber(year, month, monthStartDay, shift);
      && (!(1 <= month + shift <= 12) ==> r.Err?)
      && (r.Ok? ==> r.value.year == year && r.value.monthNb == month + shift)
  {
    CmpMonthByNumberSpec(year, month + shift, monthStartDay);
  }
}
