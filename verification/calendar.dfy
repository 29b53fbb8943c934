/** The calendar view (components/Tasks.tsx): the arithmetic of the month grid
    that JavaScript's `Date` does for it, the `YYYY-MM-DD` key of a day, the
    events of a day, and the grid the view renders. Months are numbered from
    0 (January) to 11 as `getMonth` numbers them, and weekdays from 0 (Sunday)
    to 6 as `getDay` numbers them. "Today" is a parameter. */
module Calendar {
  import opened Wrappers
  import Seqs
  import Strings
  import opened Crm

  /** A calendar date of the proleptic Gregorian calendar. */
  datatype Date = Date(year: int, month: int, day: int)

  predicate IsLeapYear(y: int)
  {
    y % 4 == 0 && (y % 100 != 0 || y % 400 == 0)
  }

  /** The length of month `m` of year `y`. */
  function DaysIn(y: int, m: int): (n: int)
    requires 0 <= m < 12
    ensures 28 <= n <= 31
  {
    if m == 1 then (if IsLeapYear(y) then 29 else 28)
    else if m == 3 || m == 5 || m == 8 || m == 10 then 30
    else 31
  }

  predicate ValidDate(d: Date)
  {
    0 <= d.month < 12 && 1 <= d.day <= DaysIn(d.year, d.month)
  }

  /** `new Date(year, month, day)` for a day between 0 and 28: a month outside
      0..11 carries into the year, and day 0 is the last day of the month
      before. */
  function MakeDate(year: int, month: int, day: int): (d: Date)
    requires 0 <= day <= 28
    ensures ValidDate(d)
  {
    var y := year + month / 12;
    var m := month % 12;
    if day > 0 then Date(y, m, day)
    else if m == 0 then Date(y - 1, 11, DaysIn(y - 1, 11))
    else Date(y, m - 1, DaysIn(y, m - 1))
  }

  /** `new Date(year, month + 1, 0).getDate()`. */
  function DaysInMonth(year: int, month: int): (n: int)
    ensures 28 <= n <= 31
  {
    MakeDate(year, month + 1, 0).day
  }

  /** Day 0 of the following month is the last day of the displayed month, so
      `daysInMonth` is that month's length, also for December. */
  lemma DaysInMonthIsLength(year: int, month: int)
    requires 0 <= month < 12
    ensures DaysInMonth(year, month) == DaysIn(year, month)
    ensures MakeDate(year, month + 1, 0) == Date(year, month, DaysIn(year, month))
  {
  }

  /** Days of the months before month `m` of year `y`. */
  function DaysBeforeMonth(y: int, m: int): int
    requires 0 <= m <= 12
  {
    [0, 31, 59, 90, 120, 151, 181, 212, 243, 273, 304, 334, 365][m] + (if m >= 2 && IsLeapYear(y) then 1 else 0)
  }

  /** The table of month starts adds up the month lengths. */
  lemma DaysBeforeMonthStep(y: int, m: int)
    requires 0 <= m < 12
    ensures DaysBeforeMonth(y, m + 1) == DaysBeforeMonth(y, m) + DaysIn(y, m)
  {
  }

  /** Days from 1 January of year 1 to 1 January of year `y`. */
  function DaysBeforeYear(y: int): int
  {
    365 * (y - 1) + (y - 1) / 4 - (y - 1) / 100 + (y - 1) / 400
  }

  /** A year is as long as its months together. */
  lemma YearLength(y: int)
    ensures DaysBeforeYear(y + 1) == DaysBeforeYear(y) + DaysBeforeMonth(y, 12)
  {
    StepBy4(y - 1);
    StepBy100(y - 1);
    StepBy400(y - 1);
    if y % 400 == 0 {
      MultipleOf400(y);
    }
    if y % 100 == 0 {
      MultipleOf100(y);
    }
    assert DaysBeforeMonth(y, 12) == 365 + (if IsLeapYear(y) then 1 else 0);
  }

  lemma MultipleOf400(y: int)
    requires y % 400 == 0
    ensures y % 100 == 0
  {
    var k := y / 400;
    assert y == 400 * k;
    assert y == 100 * (4 * k) + 0;
  }

  lemma MultipleOf100(y: int)
    requires y % 100 == 0
    ensures y % 4 == 0
  {
    var j := y / 100;
    assert y == 100 * j;
    assert y == 4 * (25 * j) + 0;
  }


  lemma StepBy4(x: int)
    ensures (x + 1) / 4 == x / 4 + (if (x + 1) % 4 == 0 then 1 else 0)
  {
    var q, r := x / 4, x % 4;
    assert x == 4 * q + r && 0 <= r < 4;
    if r == 3 {
      assert x + 1 == 4 * (q + 1);
    } else {
      assert x + 1 == 4 * q + (r + 1);
    }
  }

  lemma StepBy100(x: int)
    ensures (x + 1) / 100 == x / 100 + (if (x + 1) % 100 == 0 then 1 else 0)
  {
    var q, r := x / 100, x % 100;
    assert x == 100 * q + r && 0 <= r < 100;
    if r == 99 {
      assert x + 1 == 100 * (q + 1);
    } else {
      assert x + 1 == 100 * q + (r + 1);
    }
  }

  lemma StepBy400(x: int)
    ensures (x + 1) / 400 == x / 400 + (if (x + 1) % 400 == 0 then 1 else 0)
  {
    var q, r := x / 400, x % 400;
    assert x == 400 * q + r && 0 <= r < 400;
    if r == 399 {
      assert x + 1 == 400 * (q + 1);
    } else {
      assert x + 1 == 400 * q + (r + 1);
    }
  }

  /** Days from 1 January of year 1 to `d`. */
  function DayNumber(d: Date): int
    requires 0 <= d.month < 12
  {
    DaysBeforeYear(d.year) + DaysBeforeMonth(d.year, d.month) + d.day - 1
  }

  /** `getDay()`: 1 January of year 1 was a Monday. */
  function Weekday(d: Date): (w: int)
    requires 0 <= d.month < 12
    ensures 0 <= w < 7
  {
    (DayNumber(d) + 1) % 7
  }

  /** `new Date(year, month, 1).getDay()`. */
  function FirstDayOfMonth(year: int, month: int): (w: int)
    ensures 0 <= w < 7
  {
    Weekday(MakeDate(year, month, 1))
  }

  /** The first of the next month is the displayed month's length later. */
  lemma NextMonthDayNumber(year: int, month: int)
    requires 0 <= month < 12
    ensures DayNumber(MakeDate(year, month + 1, 1)) == DayNumber(MakeDate(year, month, 1)) + DaysIn(year, month)
  {
    assert MakeDate(year, month, 1) == Date(year, month, 1);
    DaysBeforeMonthStep(year, month);
    if month == 11 {
      assert MakeDate(year, month + 1, 1) == Date(year + 1, 0, 1);
      YearLength(year);
    } else {
      assert MakeDate(year, month + 1, 1) == Date(year, month + 1, 1);
    }
  }

  /** The month after `month` starts on the weekday after the displayed
      month's last day: the grid of one month continues in the next. */
  lemma NextMonthContinuesWeek(year: int, month: int)
    requires 0 <= month < 12
    ensures FirstDayOfMonth(year, month + 1) == (FirstDayOfMonth(year, month) + DaysInMonth(year, month)) % 7
  {
    var a := DayNumber(MakeDate(year, month, 1));
    var b := DayNumber(MakeDate(year, month + 1, 1));
    var n := DaysIn(year, month);
    assert b == a + n by {
      NextMonthDayNumber(year, month);
    }
    assert DaysInMonth(year, month) == n by {
      DaysInMonthIsLength(year, month);
    }
    assert (b + 1) % 7 == ((a + 1) % 7 + n) % 7 by {
      ShiftWeekday(a + 1, n);
    }
    assert FirstDayOfMonth(year, month) == (a + 1) % 7;
    assert FirstDayOfMonth(year, month + 1) == (b + 1) % 7;
  }

  lemma ShiftWeekday(a: int, n: int)
    ensures (a + n) % 7 == (a % 7 + n) % 7
  {
    var q := a / 7;
    assert a == 7 * q + a % 7;
    assert a + n == 7 * q + (a % 7 + n);
  }

  /** `prevMonth`: day 1 of the month before. */
  function PrevMonth(d: Date): Date
  {
    MakeDate(d.year, d.month - 1, 1)
  }

  /** `nextMonth`: day 1 of the month after. */
  function NextMonth(d: Date): Date
  {
    MakeDate(d.year, d.month + 1, 1)
  }

  /** The month buttons step one month, wrapping the year at January and
      December, and undo each other. */
  lemma MonthSteps(d: Date)
    requires ValidDate(d)
    ensures PrevMonth(d) == if d.month == 0 then Date(d.year - 1, 11, 1) else Date(d.year, d.month - 1, 1)
    ensures NextMonth(d) == if d.month == 11 then Date(d.year + 1, 0, 1) else Date(d.year, d.month + 1, 1)
    ensures NextMonth(PrevMonth(d)) == Date(d.year, d.month, 1)
    ensures PrevMonth(NextMonth(d)) == Date(d.year, d.month, 1)
  {
  }

  /** The `YYYY-MM-DD` key of a day of the displayed month:
      `${year}-${String(month + 1).padStart(2, '0')}-${String(day).padStart(2, '0')}`. */
  function DateKey(year: int, month: int, day: nat): string
    requires 0 <= month < 12
  {
    Strings.IntToString(year) + "-" + Strings.PadStart2(Strings.NatToString(month + 1 as nat)) +
      "-" + Strings.PadStart2(Strings.NatToString(day))
  }

  /** For a day below 100 the key is the year, then the two digits of the
      1-based month and the two digits of the day. */
  lemma DateKeyFormat(year: int, month: int, day: nat)
    requires 0 <= month < 12 && day < 100
    ensures DateKey(year, month, day) ==
      Strings.IntToString(year) + "-" +
      [Strings.DigitChar((month + 1) / 10), Strings.DigitChar((month + 1) % 10)] + "-" +
      [Strings.DigitChar(day / 10), Strings.DigitChar(day % 10)]
  {
    Strings.TwoDigits(month + 1);
    Strings.TwoDigits(day);
  }

  /** Two days have the same key only if they are the same day. */
  lemma DateKeyInjective(y1: int, m1: int, d1: nat, y2: int, m2: int, d2: nat)
    requires 0 <= m1 < 12 && 0 <= m2 < 12 && d1 < 100 && d2 < 100
    requires DateKey(y1, m1, d1) == DateKey(y2, m2, d2)
    ensures y1 == y2 && m1 == m2 && d1 == d2
  {
    DateKeyFormat(y1, m1, d1);
    DateKeyFormat(y2, m2, d2);
    var k := DateKey(y1, m1, d1);
    var s1 := Strings.IntToString(y1);
    var s2 := Strings.IntToString(y2);
    assert |s1| == |s2|;
    assert s1 == k[..|s1|] == s2;
    Strings.IntToStringInjective(y1, y2);
    var n := |s1|;
    DigitsInjective((m1 + 1) / 10, (m1 + 1) % 10, (m2 + 1) / 10, (m2 + 1) % 10, k[n + 1], k[n + 2]);
    DigitsInjective(d1 / 10, d1 % 10, d2 / 10, d2 % 10, k[n + 4], k[n + 5]);
  }

  lemma DigitsInjective(a1: nat, b1: nat, a2: nat, b2: nat, c1: char, c2: char)
    requires a1 < 10 && b1 < 10 && a2 < 10 && b2 < 10
    requires Strings.DigitChar(a1) == c1 == Strings.DigitChar(a2)
    requires Strings.DigitChar(b1) == c2 == Strings.DigitChar(b2)
    ensures a1 * 10 + b1 == a2 * 10 + b2
  {
    assert a1 == a2 by {
      assert Strings.DigitChar(a1) as int == '0' as int + a1;
      assert Strings.DigitChar(a2) as int == '0' as int + a2;
    }
    assert b1 == b2 by {
      assert Strings.DigitChar(b1) as int == '0' as int + b1;
      assert Strings.DigitChar(b2) as int == '0' as int + b2;
    }
  }

  function OnDate(key: string): CalendarEvent -> bool
  {
    (e: CalendarEvent) => e.date == key
  }

  /** `getEventsForDay`. */
  function EventsForDay(events: seq<CalendarEvent>, year: int, month: int, day: nat): seq<CalendarEvent>
    requires 0 <= month < 12
  {
    Seqs.Filter(events, OnDate(DateKey(year, month, day)))
  }

  /** A day shows exactly the events dated with its key, in their order, and
      an event shows on at most one day of the month. */
  lemma EventsForDayExactly(events: seq<CalendarEvent>, year: int, month: int, day: nat)
    requires 0 <= month < 12
    ensures forall e :: e in EventsForDay(events, year, month, day) <==>
      e in events && e.date == DateKey(year, month, day)
    ensures Seqs.IsSubsequence(EventsForDay(events, year, month, day), events)
  {
    Seqs.FilterIsSubsequence(events, OnDate(DateKey(year, month, day)));
  }

  lemma EventOnOneDay(events: seq<CalendarEvent>, e: CalendarEvent, year: int, month: int, d1: nat, d2: nat)
    requires 0 <= month < 12 && d1 < 100 && d2 < 100
    requires e in EventsForDay(events, year, month, d1) && e in EventsForDay(events, year, month, d2)
    ensures d1 == d2
  {
    DateKeyInjective(year, month, d1, year, month, d2);
  }

  /** The draft `handleAddNew` opens: the clicked day's key, or today's date
      when no day (or an empty key) was given, and type Meeting. */
  datatype EventDraft = EventDraft(date: string, eventType: EventType)

  function NewEventDraft(clicked: Option<string>, isoNow: string): (draft: EventDraft)
    ensures draft.eventType == Meeting
  {
    EventDraft(if clicked.Some? && clicked.value != "" then clicked.value else IsoDatePart(isoNow), Meeting)
  }

  /** Clicking a day cell opens a draft on that day; the toolbar button opens
      one on today's date. */
  lemma NewEventDraftDate(year: int, month: int, day: nat, today: string, time: string)
    requires 0 <= month < 12 && 'T' !in today
    ensures NewEventDraft(Some(DateKey(year, month, day)), today + "T" + time).date == DateKey(year, month, day)
    ensures NewEventDraft(None, today + "T" + time).date == today
  {
    IsoDatePartOf(today, time);
  }

  /** `Math.ceil((daysInMonth + firstDayOfMonth) / 7) * 7`. */
  function TotalSlots(first: int, days: int): int
    requires first >= 0 && days >= 0
  {
    (first + days + 6) / 7 * 7
  }

  /** The grid is whole weeks, and the fewest that hold the blanks before
      day 1 and the days of the month. */
  lemma TotalSlotsIsLeastWeekMultiple(first: int, days: int)
    requires first >= 0 && days >= 0
    ensures TotalSlots(first, days) % 7 == 0
    ensures first + days <= TotalSlots(first, days) < first + days + 7
  {
  }

  /** One cell of the grid. */
  datatype Slot = Blank | DayCell(day: int, key: string, events: seq<CalendarEvent>, isToday: bool)

  /** Cell `i` of the grid of a month whose first day falls on weekday
      `first` and which has `days` days. */
  function Cell(shown: Date, first: int, days: int, events: seq<CalendarEvent>, today: Date, i: int): Slot
    requires 0 <= shown.month < 12
  {
    var dayNumber := i - first + 1;
    if 0 < dayNumber <= days then
      DayCell(dayNumber, DateKey(shown.year, shown.month, dayNumber),
        EventsForDay(events, shown.year, shown.month, dayNumber),
        dayNumber == today.day && shown.month == today.month && shown.year == today.year)
    else Blank
  }

  /** Cell `i` of the grid for the displayed month. */
  function SlotAt(shown: Date, events: seq<CalendarEvent>, today: Date, i: int): Slot
    requires 0 <= shown.month < 12
  {
    Cell(shown, FirstDayOfMonth(shown.year, shown.month), DaysInMonth(shown.year, shown.month), events, today, i)
  }

  /** One pass of the loop of `renderCalendarGrid`: a blank before day 1
      and after the last day, otherwise the day's number, key, events and
      whether it is today. This is the loop's own step, written as the view
      writes it and proved to build the cell `Cell` prescribes. */
  method RenderSlot(shown: Date, first: int, days: int, events: seq<CalendarEvent>, today: Date, i: int)
    returns (slot: Slot)
    requires 0 <= shown.month < 12
    ensures slot == Cell(shown, first, days, events, today, i)
  {
    var dayNumber := i - first + 1;
    var isCurrentMonth := dayNumber > 0 && dayNumber <= days;
    if !isCurrentMonth {
      slot := Blank;
    } else {
      var dayEvents := EventsForDay(events, shown.year, shown.month, dayNumber);
      var isToday := dayNumber == today.day && shown.month == today.month && shown.year == today.year;
      var dateStr := DateKey(shown.year, shown.month, dayNumber);
      slot := DayCell(dayNumber, dateStr, dayEvents, isToday);
    }
  }

  /** `renderCalendarGrid`. */
  method RenderGrid(shown: Date, events: seq<CalendarEvent>, today: Date) returns (grid: seq<Slot>)
    requires 0 <= shown.month < 12
    ensures |grid| == TotalSlots(FirstDayOfMonth(shown.year, shown.month), DaysInMonth(shown.year, shown.month))
    ensures forall i :: 0 <= i < |grid| ==> grid[i] == SlotAt(shown, events, today, i)
  {
    var first := FirstDayOfMonth(shown.year, shown.month);
    var days := DaysInMonth(shown.year, shown.month);
    var totalSlots := (first + days + 6) / 7 * 7;
    ghost var wanted := seq(totalSlots, j requires 0 <= j => Cell(shown, first, days, events, today, j));
    grid := [];
    for i := 0 to totalSlots
      invariant grid == wanted[..i]
    {
      var slot := RenderSlot(shown, first, days, events, today, i);
      Seqs.PrefixGrows(wanted, i);
      grid := grid + [slot];
    }
    assert grid == wanted;
  }

  /** Cell `i` holds day `i - firstDayOfMonth + 1`: each day of the month
      has a cell of the grid ... */
  lemma GridCellOfDay(shown: Date, events: seq<CalendarEvent>, today: Date, d: int)
    requires 0 <= shown.month < 12
    requires 1 <= d <= DaysInMonth(shown.year, shown.month)
    ensures var first := FirstDayOfMonth(shown.year, shown.month);
      var slot := SlotAt(shown, events, today, first + d - 1);
      first + d - 1 < TotalSlots(first, DaysInMonth(shown.year, shown.month)) && slot.DayCell? && slot.day == d &&
      slot.key == DateKey(shown.year, shown.month, d) && slot.events == EventsForDay(events, shown.year, shown.month, d)
  {
  }

  /** ... and only one: a cell showing a day sits at that day's position ... */
  lemma GridDayCellPosition(shown: Date, events: seq<CalendarEvent>, today: Date, i: int)
    requires 0 <= shown.month < 12
    requires SlotAt(shown, events, today, i).DayCell?
    ensures i == FirstDayOfMonth(shown.year, shown.month) + SlotAt(shown, events, today, i).day - 1
    ensures 1 <= SlotAt(shown, events, today, i).day <= DaysInMonth(shown.year, shown.month)
  {
  }

  /** ... and every other cell is blank. */
  lemma GridBlankCells(shown: Date, events: seq<CalendarEvent>, today: Date, i: int)
    requires 0 <= shown.month < 12
    requires var first := FirstDayOfMonth(shown.year, shown.month);
      !(first <= i < first + DaysInMonth(shown.year, shown.month))
    ensures SlotAt(shown, events, today, i) == Blank
  {
  }

  /** A cell is marked today exactly when it is today's date. */
  lemma TodayCell(shown: Date, events: seq<CalendarEvent>, today: Date, i: int)
    requires 0 <= shown.month < 12
    requires SlotAt(shown, events, today, i).DayCell?
    ensures SlotAt(shown, events, today, i).isToday <==>
      Date(shown.year, shown.month, SlotAt(shown, events, today, i).day) == today
  {
  }
}
