/**
 * The inline calendar widget: a month of day buttons laid out by
 * `calendar.monthcalendar`, month navigation that keeps or resets the
 * selection, and selection by pressing a day.
 */
module WidgetCalendar {
  import opened Wrappers
  import opened Dates
  import CalendarDisplay

  /**
   * `calendar.monthcalendar(y, m)` with weeks starting on Monday: the rows of
   * the month, seven entries each, 0 for the places before day 1 and after
   * the last day.
   */
  function MonthCalendar(y: int, m: int): seq<seq<int>>
    requires 1 <= m <= 12
  {
    var rows := (Weekday(Date(y, m, 1)) + DaysInMonth(y, m) + 6) / 7;
    seq(rows, w => seq(7, k => DayAt(y, m, 7 * w + k)))
  }

  /** The entry at position `p` of the month's rows read in order: a day number, or 0. */
  function DayAt(y: int, m: int, p: int): (d: int)
    requires 1 <= m <= 12
    ensures 0 <= d <= DaysInMonth(y, m)
    ensures d != 0 <==> Weekday(Date(y, m, 1)) <= p < Weekday(Date(y, m, 1)) + DaysInMonth(y, m)
  {
    var d := p - Weekday(Date(y, m, 1)) + 1;
    if 1 <= d <= DaysInMonth(y, m) then d else 0
  }

  /** A grid button: a disabled placeholder (its id numbered by position), or a day with its two style flags. */
  datatype Button = EmptyButton(index: int) | DayButton(day: int, selected: bool, today: bool)

  /** The button built for the entry `d` at position `p` of the month (`y`, `m`). */
  function ButtonFor(y: int, m: int, d: int, p: int, selectedDate: Date, today: Date): Button {
    if d == 0 then EmptyButton(p)
    else DayButton(d, Date(y, m, d) == selectedDate, Date(y, m, d) == today)
  }

  /** The buttons `_get_day_buttons` builds, position by position. */
  function DayButtons(y: int, m: int, selectedDate: Date, today: Date): seq<Button>
    requires 1 <= m <= 12
  {
    seq(7 * |MonthCalendar(y, m)|, p => ButtonFor(y, m, DayAt(y, m, p), p, selectedDate, today))
  }

  /**
   * Whole weeks cover the month with less than a week to spare; day `d` sits
   * at position `d - 1` after the 1st's weekday and nowhere else; only the
   * selected date carries "selected", only today carries "today", and every
   * other position is a disabled placeholder.
   */
  lemma DayButtonsLayout(y: int, m: int, selectedDate: Date, today: Date)
    requires 1 <= m <= 12
    ensures var b, fw, dim := DayButtons(y, m, selectedDate, today), Weekday(Date(y, m, 1)), DaysInMonth(y, m);
      && |b| % 7 == 0 && fw + dim <= |b| < fw + dim + 7
      && (forall d :: 1 <= d <= dim ==>
            b[fw + d - 1] == DayButton(d, Date(y, m, d) == selectedDate, Date(y, m, d) == today))
      && (forall p :: 0 <= p < |b| && !(fw <= p < fw + dim) ==> b[p] == EmptyButton(p))
      && (forall p, q :: 0 <= p < |b| && 0 <= q < |b| && b[p].DayButton? && b[q].DayButton? && b[p].day == b[q].day ==> p == q)
  {
    var b, fw, dim := DayButtons(y, m, selectedDate, today), Weekday(Date(y, m, 1)), DaysInMonth(y, m);
    var rows := (fw + dim + 6) / 7;
    assert |b| == 7 * rows;
    forall d | 1 <= d <= dim
      ensures b[fw + d - 1] == DayButton(d, Date(y, m, d) == selectedDate, Date(y, m, d) == today)
    {
      assert DayAt(y, m, fw + d - 1) == d;
    }
    forall p, q | 0 <= p < |b| && 0 <= q < |b| && b[p].DayButton? && b[q].DayButton? && b[p].day == b[q].day
      ensures p == q
    {
      assert b[p].day == DayAt(y, m, p) && b[q].day == DayAt(y, m, q);
    }
  }

  /** The widget's state: the month shown (through any date in it), the selected date, and today. */
  class Calendar {
    var currentDate: Date
    var selectedDate: Date
    var today: Date

    ghost predicate Valid()
      reads this
    {
      Dates.Valid(currentDate) && Dates.Valid(selectedDate) && Dates.Valid(today)
    }

    /** Starts on `initialDate`, or on today when there is none, with that date selected. */
    constructor (initialDate: Option<Date>, now: Date)
      requires Dates.Valid(now) && (initialDate.Some? ==> Dates.Valid(initialDate.value))
      ensures Valid()
      ensures currentDate == (if initialDate.Some? then initialDate.value else now)
      ensures selectedDate == currentDate && today == now
    {
      var current := if initialDate.Some? then initialDate.value else now;
      currentDate := current;
      selectedDate := current;
      today := now;
    }

    /** `_get_day_buttons`: one button per entry of each week of `monthcalendar`, week by week. */
    method GetDayButtons() returns (buttons: seq<Button>)
      requires Valid()
      ensures buttons == DayButtons(currentDate.year, currentDate.month, selectedDate, today)
    {
      var y, m := currentDate.year, currentDate.month;
      var weeks := MonthCalendar(y, m);
      buttons := [];
      var w := 0;
      while w < |weeks|
        invariant 0 <= w <= |weeks|
        invariant |buttons| == 7 * w
        invariant forall p :: 0 <= p < |buttons| ==> buttons[p] == ButtonFor(y, m, DayAt(y, m, p), p, selectedDate, today)
      {
        var week := weeks[w];
        var k := 0;
        while k < |week|
          invariant |week| == 7 && 0 <= k <= 7
          invariant |buttons| == 7 * w + k
          invariant forall p :: 0 <= p < |buttons| ==> buttons[p] == ButtonFor(y, m, DayAt(y, m, p), p, selectedDate, today)
        {
          var day := week[k];
          var btn;
          if day == 0 {
            btn := EmptyButton(|buttons|);
          } else {
            var dayDate := Date(y, m, day);
            btn := DayButton(day, dayDate == selectedDate, dayDate == today);
          }
          buttons := buttons + [btn];
          k := k + 1;
        }
        w := w + 1;
      }
    }

    /**
     * `_change_month`: show the 1st of the shifted month, and keep the
     * selection only when it lies in that month, else select the 1st.
     */
    method ChangeMonth(delta: int)
      requires Valid()
      modifies this
      ensures Valid()
      ensures (currentDate.year, currentDate.month) == CalendarDisplay.MonthAfterShift(old(currentDate.year), old(currentDate.month), delta)
      ensures currentDate.day == 1
      ensures selectedDate == (if old(selectedDate).year == currentDate.year && old(selectedDate).month == currentDate.month
                               then old(selectedDate) else currentDate)
      ensures selectedDate.year == currentDate.year && selectedDate.month == currentDate.month
      ensures today == old(today)
    {
      var month := currentDate.month + delta;
      var year := currentDate.year;
      if month > 12 {
        month := 1;
        year := year + 1;
      } else if month < 1 {
        month := 12;
        year := year - 1;
      }
      currentDate := Date(year, month, 1);
      if selectedDate.month != month || selectedDate.year != year {
        selectedDate := currentDate;
      }
    }

    /** Pressing the button of day `day` selects that day of the month shown; the month shown stays. */
    method PressDay(day: int)
      requires Valid() && 1 <= day <= DaysInMonth(currentDate.year, currentDate.month)
      modifies this
      ensures Valid()
      ensures selectedDate == Date(currentDate.year, currentDate.month, day)
      ensures currentDate == old(currentDate) && today == old(today)
    {
      selectedDate := Date(currentDate.year, currentDate.month, day);
    }
  }
}
