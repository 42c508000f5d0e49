/**
 * The date picker's month grid: the displayed month is always held as its
 * first day, navigation moves it a month at a time, and the grid is a run of
 * whole weeks of buttons covering the month, padded with the end of the
 * previous month and the start of the next.
 */
module CalendarDisplay {
  import opened Wrappers
  import opened Dates

  /**
   * Year and month after adding `delta` to the month, as both calendar
   * widgets compute it: a month past December becomes January of the next
   * year, one before January becomes December of the previous year.
   */
  function MonthAfterShift(y: int, m: int, delta: int): (r: (int, int))
    ensures 1 <= r.1 <= 12 && y - 1 <= r.0 <= y + 1
    ensures 1 <= m + delta <= 12 <==> r == (y, m + delta)
  {
    var newMonth := m + delta;
    if newMonth > 12 then (y + 1, 1)
    else if newMonth < 1 then (y - 1, 12)
    else (y, newMonth)
  }

  /** One step forward or back is the next or the previous month, and the two undo each other. */
  lemma MonthAfterShiftSteps(y: int, m: int)
    requires 1 <= m <= 12
    ensures MonthAfterShift(y, m, 1) == NextMonth(y, m)
    ensures MonthAfterShift(y, m, -1) == PrevMonth(y, m)
    ensures var (ny, nm) := MonthAfterShift(y, m, 1); MonthAfterShift(ny, nm, -1) == (y, m)
    ensures var (py, pm) := MonthAfterShift(y, m, -1); MonthAfterShift(py, pm, 1) == (y, m)
  {
  }

  /** A button of the grid: its label, the date its id names, and its style classes. */
  datatype Cell = Cell(caption: int, date: Date, otherMonth: bool, isToday: bool)

  /** Column of the month's first day: its weekday counted from Monday, or from Sunday. */
  function FirstColumn(firstDay: Date, weekStartsMonday: bool): (c: int)
    requires Valid(firstDay)
    ensures 0 <= c < 7
  {
    if weekStartsMonday then Weekday(firstDay) else (Weekday(firstDay) + 1) % 7
  }

  /** Cells after the month: fill the sixth row, or only the fifth when it has room. */
  function TrailingCount(totalShown: int): int {
    var remaining := 42 - totalShown;
    if remaining > 7 then remaining - 7 else remaining
  }

  /** `_generate_calendar_days`: the buttons of the grid for the month starting on `firstDay`. */
  function GenerateCalendarDays(firstDay: Date, today: Date, weekStartsMonday: bool): seq<Cell>
    requires Valid(firstDay) && firstDay.day == 1
  {
    var year, month := firstDay.year, firstDay.month;
    var firstWeekday := FirstColumn(firstDay, weekStartsMonday);
    var nextMonth := if month == 12 then Date(year + 1, 1, 1) else Date(year, month + 1, 1);
    var lastDay := AddDays(nextMonth, -1);
    var daysInMonth := lastDay.day;
    var daysFromPrev := firstWeekday;
    var prevMonthDate := if month == 1 then Date(year - 1, 12, 1) else Date(year, month - 1, 1);
    var prevMonthLast := AddDays(firstDay, -1);
    var prevMonthDays := prevMonthLast.day;
    var remaining := TrailingCount(daysFromPrev + daysInMonth);
    LeadingCells(prevMonthDate, prevMonthDays, daysFromPrev)
      + MonthCells(year, month, daysInMonth, today)
      + TrailingCells(nextMonth, remaining)
  }

  /** The first loop: the previous month's last `count` days, out of its `prevMonthDays`. */
  function LeadingCells(prevMonthDate: Date, prevMonthDays: int, count: int): seq<Cell>
    requires count >= 0
  {
    seq(count, i =>
      var dayNum := prevMonthDays - count + i + 1;
      Cell(dayNum, Date(prevMonthDate.year, prevMonthDate.month, dayNum), true, false))
  }

  /** The second loop: days 1 to `daysInMonth`, the one equal to `today` marked. */
  function MonthCells(year: int, month: int, daysInMonth: int, today: Date): seq<Cell> {
    seq(if daysInMonth < 0 then 0 else daysInMonth, i =>
      var date := Date(year, month, i + 1);
      Cell(i + 1, date, false, date == today))
  }

  /** The third loop: the first `remaining` days of the next month. */
  function TrailingCells(nextMonth: Date, remaining: int): seq<Cell> {
    seq(if remaining < 0 then 0 else remaining, i =>
      Cell(i + 1, Date(nextMonth.year, nextMonth.month, i + 1), true, false))
  }

  /** The two `timedelta(days=1)` steps find the month's last day and the previous month's last day. */
  lemma MonthEnds(firstDay: Date)
    requires Valid(firstDay) && firstDay.day == 1
    ensures var (ny, nm) := NextMonth(firstDay.year, firstDay.month);
      AddDays(Date(ny, nm, 1), -1) == Date(firstDay.year, firstDay.month, DaysInMonth(firstDay.year, firstDay.month))
    ensures AddDays(firstDay, -1) == LastOfPreviousMonth(firstDay.year, firstDay.month)
  {
    var (ny, nm) := NextMonth(firstDay.year, firstDay.month);
    assert AddDays(Date(ny, nm, 1), -1) == AddDays(PrevDay(Date(ny, nm, 1)), 0);
    assert AddDays(firstDay, -1) == AddDays(PrevDay(firstDay), 0);
  }

  /**
   * The layout of a grid for the month starting on `firstDay` whose first day
   * sits in column `fw`: the previous month's last `fw` days, in order, then
   * days 1 to the month's length, of which only the one equal to `today` is
   * marked, then 1 to 7 days opening the next month, for 35 or 42 cells.
   */
  predicate GridShape(cells: seq<Cell>, firstDay: Date, today: Date, fw: int)
    requires Valid(firstDay)
  {
    var y, m := firstDay.year, firstDay.month;
    var dim := DaysInMonth(y, m);
    var (py, pm) := PrevMonth(y, m);
    var (ny, nm) := NextMonth(y, m);
    && 0 <= fw < 7
    && (|cells| == 35 || |cells| == 42)
    && fw + dim < |cells| <= fw + dim + 7
    && (forall i :: 0 <= i < fw ==>
          cells[i] == Cell(DaysInMonth(py, pm) - fw + i + 1, Date(py, pm, DaysInMonth(py, pm) - fw + i + 1), true, false))
    && (forall i :: fw <= i < fw + dim ==>
          cells[i] == Cell(i - fw + 1, Date(y, m, i - fw + 1), false, Date(y, m, i - fw + 1) == today))
    && (forall i :: fw + dim <= i < |cells| ==>
          cells[i] == Cell(i - fw - dim + 1, Date(ny, nm, i - fw - dim + 1), true, false))
  }

  /** `_generate_calendar_days` lays the grid out as `GridShape` says, with the month's first day in `FirstColumn`. */
  lemma GridLayout(firstDay: Date, today: Date, weekStartsMonday: bool)
    requires Valid(firstDay) && firstDay.day == 1
    ensures GridShape(GenerateCalendarDays(firstDay, today, weekStartsMonday), firstDay, today,
                      FirstColumn(firstDay, weekStartsMonday))
  {
    MonthEnds(firstDay);
    var y, m := firstDay.year, firstDay.month;
    var fw := FirstColumn(firstDay, weekStartsMonday);
    var dim := DaysInMonth(y, m);
    var (py, pm) := PrevMonth(y, m);
    var (ny, nm) := NextMonth(y, m);
    var pdim := DaysInMonth(py, pm);
    assert AddDays(firstDay, -1).day == pdim;
    var leading := LeadingCells(Date(py, pm, 1), pdim, fw);
    var current := MonthCells(y, m, dim, today);
    var trailing := TrailingCells(Date(ny, nm, 1), TrailingCount(fw + dim));
    assert GenerateCalendarDays(firstDay, today, weekStartsMonday) == leading + current + trailing;
    ConcatShape(leading, current, trailing, firstDay, today, fw);
  }

  /** Three runs of cells of the right lengths and contents make a grid of `GridShape`. */
  lemma ConcatShape(leading: seq<Cell>, current: seq<Cell>, trailing: seq<Cell>, firstDay: Date, today: Date, fw: int)
    requires Valid(firstDay) && 0 <= fw < 7
    requires var dim := DaysInMonth(firstDay.year, firstDay.month);
      && |leading| == fw && |current| == dim && |trailing| == TrailingCount(fw + dim)
    requires var (py, pm) := PrevMonth(firstDay.year, firstDay.month);
      forall i :: 0 <= i < |leading| ==>
        leading[i] == Cell(DaysInMonth(py, pm) - fw + i + 1, Date(py, pm, DaysInMonth(py, pm) - fw + i + 1), true, false)
    requires forall i :: 0 <= i < |current| ==>
      current[i] == Cell(i + 1, Date(firstDay.year, firstDay.month, i + 1), false, Date(firstDay.year, firstDay.month, i + 1) == today)
    requires var (ny, nm) := NextMonth(firstDay.year, firstDay.month);
      forall i :: 0 <= i < |trailing| ==> trailing[i] == Cell(i + 1, Date(ny, nm, i + 1), true, false)
    ensures GridShape(leading + current + trailing, firstDay, today, fw)
  {
    var cells := leading + current + trailing;
    var dim := |current|;
    assert forall i :: fw <= i < fw + dim ==> cells[i] == current[i - fw];
    assert forall i :: fw + dim <= i < |cells| ==> cells[i] == trailing[i - fw - dim];
  }

  /** In a grid of that shape, cell `i` holds the day `i - fw` days after the month's first day. */
  lemma ShapeOrdinals(cells: seq<Cell>, firstDay: Date, today: Date, fw: int)
    requires Valid(firstDay) && firstDay.day == 1 && GridShape(cells, firstDay, today, fw)
    ensures forall i :: 0 <= i < |cells| ==> Valid(cells[i].date) && Ordinal(cells[i].date) == Ordinal(firstDay) - fw + i
  {
    var y, m := firstDay.year, firstDay.month;
    var (py, pm) := PrevMonth(y, m);
    var (ny, nm) := NextMonth(y, m);
    PrevDayFacts(firstDay);
    NextDayFacts(Date(y, m, DaysInMonth(y, m)));
    forall i | 0 <= i < |cells|
      ensures Valid(cells[i].date) && Ordinal(cells[i].date) == Ordinal(firstDay) - fw + i
    {
      CellOrdinal(cells, firstDay, today, fw, i);
    }
  }

  /** One cell of `ShapeOrdinals`, given where the previous month ends and the next one starts. */
  lemma CellOrdinal(cells: seq<Cell>, firstDay: Date, today: Date, fw: int, i: int)
    requires Valid(firstDay) && firstDay.day == 1 && GridShape(cells, firstDay, today, fw)
    requires var (py, pm) := PrevMonth(firstDay.year, firstDay.month);
      Valid(Date(py, pm, DaysInMonth(py, pm))) && Ordinal(Date(py, pm, DaysInMonth(py, pm))) == Ordinal(firstDay) - 1
    requires var (ny, nm) := NextMonth(firstDay.year, firstDay.month);
      Valid(Date(ny, nm, 1))
      && Ordinal(Date(ny, nm, 1)) == Ordinal(firstDay) + DaysInMonth(firstDay.year, firstDay.month)
    requires 0 <= i < |cells|
    ensures Valid(cells[i].date) && Ordinal(cells[i].date) == Ordinal(firstDay) - fw + i
  {
    var y, m := firstDay.year, firstDay.month;
    var dim := DaysInMonth(y, m);
    var (py, pm) := PrevMonth(y, m);
    var (ny, nm) := NextMonth(y, m);
    var pdim := DaysInMonth(py, pm);
    if i < fw {
      var k := pdim - fw + i + 1;
      assert cells[i].date == Date(py, pm, k);
      SameMonthOrdinal(py, pm, k, pdim);
    } else if i < fw + dim {
      assert cells[i].date == Date(y, m, i - fw + 1);
      SameMonthOrdinal(y, m, i - fw + 1, 1);
    } else {
      var k := i - fw - dim + 1;
      assert cells[i].date == Date(ny, nm, k);
      SameMonthOrdinal(ny, nm, k, 1);
    }
  }

  /** Within one month, ordinals differ as the day numbers do. */
  lemma SameMonthOrdinal(y: int, m: int, a: int, b: int)
    requires 1 <= m <= 12 && 1 <= a <= DaysInMonth(y, m) && 1 <= b <= DaysInMonth(y, m)
    ensures Valid(Date(y, m, a)) && Valid(Date(y, m, b))
    ensures Ordinal(Date(y, m, a)) == Ordinal(Date(y, m, b)) + a - b
  {
  }

  /**
   * Read in order, the grid is a run of consecutive days that starts on the
   * first day of a week (a Monday, or a Sunday) and contains the whole month;
   * every caption is its date's day number, and only `today` can be marked.
   */
  lemma GridIsConsecutiveDays(firstDay: Date, today: Date, weekStartsMonday: bool)
    requires Valid(firstDay) && firstDay.day == 1
    ensures var cells := GenerateCalendarDays(firstDay, today, weekStartsMonday);
      && (forall i :: 0 <= i < |cells| ==>
            Valid(cells[i].date) && cells[i].caption == cells[i].date.day
            && Ordinal(cells[i].date) == Ordinal(cells[0].date) + i
            && (cells[i].isToday <==> !cells[i].otherMonth && cells[i].date == today)
            && (cells[i].otherMonth <==> cells[i].date.month != firstDay.month))
      && Weekday(cells[0].date) == (if weekStartsMonday then 0 else 6)
      && cells[FirstColumn(firstDay, weekStartsMonday)].date == firstDay
  {
    GridLayout(firstDay, today, weekStartsMonday);
    ShapeFacts(GenerateCalendarDays(firstDay, today, weekStartsMonday), firstDay, today, weekStartsMonday);
  }

  lemma ShapeFacts(cells: seq<Cell>, firstDay: Date, today: Date, weekStartsMonday: bool)
    requires Valid(firstDay) && firstDay.day == 1
    requires GridShape(cells, firstDay, today, FirstColumn(firstDay, weekStartsMonday))
    ensures forall i :: 0 <= i < |cells| ==>
            Valid(cells[i].date) && cells[i].caption == cells[i].date.day
            && Ordinal(cells[i].date) == Ordinal(cells[0].date) + i
            && (cells[i].isToday <==> !cells[i].otherMonth && cells[i].date == today)
            && (cells[i].otherMonth <==> cells[i].date.month != firstDay.month)
    ensures Weekday(cells[0].date) == (if weekStartsMonday then 0 else 6)
    ensures cells[FirstColumn(firstDay, weekStartsMonday)].date == firstDay
  {
    var fw := FirstColumn(firstDay, weekStartsMonday);
    ShapeOrdinals(cells, firstDay, today, fw);
    forall i | 0 <= i < |cells|
      ensures cells[i].caption == cells[i].date.day
      ensures cells[i].isToday <==> !cells[i].otherMonth && cells[i].date == today
      ensures cells[i].otherMonth <==> cells[i].date.month != firstDay.month
    {
      CellLabels(cells, firstDay, today, fw, i);
    }
    assert cells[fw].date == firstDay by {
      assert cells[fw] == Cell(1, Date(firstDay.year, firstDay.month, 1), false, Date(firstDay.year, firstDay.month, 1) == today);
    }
    WeekStartCell(cells[0].date, firstDay, weekStartsMonday);
  }

  /** One cell of `ShapeFacts`: its caption is its day, and it is marked as today or as another month's exactly when it is one. */
  lemma CellLabels(cells: seq<Cell>, firstDay: Date, today: Date, fw: int, i: int)
    requires Valid(firstDay) && GridShape(cells, firstDay, today, fw) && 0 <= i < |cells|
    ensures cells[i].caption == cells[i].date.day
    ensures cells[i].isToday <==> !cells[i].otherMonth && cells[i].date == today
    ensures cells[i].otherMonth <==> cells[i].date.month != firstDay.month
  {
    var y, m := firstDay.year, firstDay.month;
    var dim := DaysInMonth(y, m);
    var (py, pm) := PrevMonth(y, m);
    var (ny, nm) := NextMonth(y, m);
    if i < fw {
      var k := DaysInMonth(py, pm) - fw + i + 1;
      assert cells[i] == Cell(k, Date(py, pm, k), true, false);
    } else if i < fw + dim {
      assert cells[i] == Cell(i - fw + 1, Date(y, m, i - fw + 1), false, Date(y, m, i - fw + 1) == today);
    } else {
      var k := i - fw - dim + 1;
      assert cells[i] == Cell(k, Date(ny, nm, k), true, false);
    }
  }

  /** The day `FirstColumn` days before the month's first day is a Monday, or a Sunday. */
  lemma WeekStartCell(c0: Date, firstDay: Date, weekStartsMonday: bool)
    requires Valid(c0) && Valid(firstDay)
    requires Ordinal(c0) == Ordinal(firstDay) - FirstColumn(firstDay, weekStartsMonday)
    ensures Weekday(c0) == (if weekStartsMonday then 0 else 6)
  {
    WeekdayOfOrdinal(c0);
    WeekdayOfOrdinal(firstDay);
    FirstCellWeekday(Ordinal(firstDay), weekStartsMonday);
  }

  /** The day `fw` days before a month's first day starts a week: a Monday, or a Sunday. */
  lemma FirstCellWeekday(o: int, weekStartsMonday: bool)
    ensures var w := (o + 6) % 7;
      var fw := if weekStartsMonday then w else (w + 1) % 7;
      (o - fw + 6) % 7 == (if weekStartsMonday then 0 else 6)
  {
    var w := (o + 6) % 7;
    var q := (o + 6) / 7;
    assert o + 6 == 7 * q + w;
    if weekStartsMonday {
      assert o - w + 6 == 7 * q;
    } else if w == 6 {
      assert (w + 1) % 7 == 0;
      assert o + 6 == 7 * q + 6;
    } else {
      assert (w + 1) % 7 == w + 1;
      assert o - (w + 1) + 6 == 7 * (q - 1) + 6;
    }
  }

  /** The picker's state: the month on display (held as its first day) and today's date. */
  class CalendarWidget {
    var displayDate: Date
    var today: Date
    var currentDate: Date
    const weekStartsMonday: bool

    ghost predicate Valid()
      reads this
    {
      Dates.Valid(displayDate) && displayDate.day == 1 && Dates.Valid(currentDate) && Dates.Valid(today)
    }

    /** Opens on `initialDate` (or on `now` when there is none), displaying its month. */
    constructor (initialDate: Option<Date>, now: Date, weekStartsMonday: bool)
      requires Dates.Valid(now) && (initialDate.Some? ==> Dates.Valid(initialDate.value))
      ensures Valid()
      ensures currentDate == (if initialDate.Some? then initialDate.value else now) && today == now
      ensures displayDate == Date(currentDate.year, currentDate.month, 1)
      ensures this.weekStartsMonday == weekStartsMonday
    {
      var current := if initialDate.Some? then initialDate.value else now;
      currentDate := current;
      today := now;
      this.weekStartsMonday := weekStartsMonday;
      displayDate := Date(current.year, current.month, 1);
    }

    /** The grid for the month on display. */
    function CalendarDays(): seq<Cell>
      reads this
      requires Valid()
    {
      GenerateCalendarDays(displayDate, today, weekStartsMonday)
    }

    /** `_change_month`: display the first day of the shifted month; nothing else changes. */
    method ChangeMonth(delta: int)
      requires Valid()
      modifies this
      ensures Valid()
      ensures (displayDate.year, displayDate.month) == MonthAfterShift(old(displayDate.year), old(displayDate.month), delta)
      ensures displayDate.day == 1
      ensures today == old(today) && currentDate == old(currentDate)
    {
      var currentMonth := displayDate.month;
      var currentYear := displayDate.year;
      var newMonth := currentMonth + delta;
      var newYear := currentYear;
      if newMonth > 12 {
        newMonth := 1;
        newYear := newYear + 1;
      } else if newMonth < 1 {
        newMonth := 12;
        newYear := newYear - 1;
      }
      displayDate := Date(newYear, newMonth, 1);
    }
  }
}
