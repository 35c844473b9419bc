/**
 * Schedule expansion in `create_schedule_section`: one submitted template
 * becomes the rows appended to the schedule, one row for a one-time entry,
 * seven for a daily one and one per matching weekday for a weekly one.
 */
module Schedule {
  import opened Records

  /** The names `strftime("%A")` gives, Monday first, as the weekday selector lists them. */
  const WeekdayNames: seq<string> :=
    ["Monday", "Tuesday", "Wednesday", "Thursday", "Friday", "Saturday", "Sunday"]

  /**
   * `date.strftime("%A")` for a day number. Monday 2025-01-06 is day 20094;
   * the names follow the week from there, forwards and backwards.
   */
  function WeekdayName(day: int): (name: string)
    ensures name in WeekdayNames
    ensures name == WeekdayNames[(day - 20094) % 7]
  {
    assert (day + 3) % 7 == (day - 20094) % 7 by {
      assert day + 3 == (day - 20094) + 7 * 2871;
    }
    WeekdayNames[(day + 3) % 7]
  }

  /** The calendar's anchors: 1970-01-01 (day 0) was a Thursday and 2025-01-06 a Monday. */
  lemma CalendarAnchors()
    ensures WeekdayName(0) == "Thursday"
    ensures WeekdayName(20094) == "Monday"
  {
  }

  /** Two dates share a weekday name exactly when they are a whole number of weeks apart. */
  lemma SameWeekday(a: int, b: int)
    ensures WeekdayName(a) == WeekdayName(b) <==> (b - a) % 7 == 0
  {
    var i, j := (a + 3) % 7, (b + 3) % 7;
    assert WeekdayNames[i] == WeekdayNames[j] <==> i == j;
    assert a + 3 == ((a + 3) / 7) * 7 + i;
    assert b + 3 == ((b + 3) / 7) * 7 + j;
    assert b - a == ((b + 3) / 7 - (a + 3) / 7) * 7 + (j - i);
  }

  /** After a date, the next date with the same weekday name is one week later. */
  lemma NextSameWeekday(a: int, b: int)
    requires a < b
    requires WeekdayName(a) == WeekdayName(b)
    requires forall d :: a < d < b ==> WeekdayName(d) != WeekdayName(a)
    ensures b == a + 7
  {
    SameWeekday(a, b);
    SameWeekday(a, a + 7);
    assert a < a + 7 < b ==> WeekdayName(a + 7) != WeekdayName(a);
    assert b - a == ((b - a) / 7) * 7;
  }

  /** The fields a submission shares among all its rows: `HH:MM` time, priority, activity, planned hours. */
  datatype Template = Template(time: string, priority: string, activity: string, plannedDuration: real)

  /** The recurrence chosen with the "Schedule Type" selector, with the dates it asks for. */
  datatype Recurrence = OneTime(date: int) | Daily | Weekly(weekday: string, start: int, end: int)

  /** The `Schedule_Type` column: the selector's label. */
  function TypeName(kind: Recurrence): string {
    match kind
    case OneTime(_) => "One-time"
    case Daily => "Daily"
    case Weekly(_, _, _) => "Weekly"
  }

  /** One appended row: the template on the given date, with the schedule type and status "Pending". */
  function Row(t: Template, date: int, kind: Recurrence): ScheduleEntry {
    ScheduleEntry(date, t.time, t.priority, t.activity, t.plannedDuration, TypeName(kind), "Pending")
  }

  /** The row carries the template's fields, the schedule type of the recurrence and status "Pending". */
  ghost predicate FromTemplate(e: ScheduleEntry, t: Template, kind: Recurrence) {
    && e.time == t.time
    && e.priority == t.priority
    && e.activity == t.activity
    && e.plannedDuration == t.plannedDuration
    && e.scheduleType == TypeName(kind)
    && e.status == "Pending"
  }

  /** "Daily": seven rows, today and the six days after it, in that order. */
  method ExpandDaily(t: Template, today: int) returns (rows: seq<ScheduleEntry>)
    ensures |rows| == 7
    ensures forall i :: 0 <= i < 7 ==> rows[i].date == today + i && FromTemplate(rows[i], t, Daily)
  {
    rows := [];
    for i := 0 to 7
      invariant |rows| == i
      invariant forall j :: 0 <= j < i ==> rows[j].date == today + j && FromTemplate(rows[j], t, Daily)
    {
      rows := rows + [Row(t, today + i, Daily)];
    }
  }

  /**
   * What the "Weekly" loop has produced once it has looked at every date
   * from start up to, not including, current: each matching date once,
   * ascending, one week apart.
   */
  ghost predicate WeeklySoFar(dates: seq<int>, weekday: string, start: int, current: int) {
    && (forall i :: 0 <= i < |dates| ==> start <= dates[i] < current && WeekdayName(dates[i]) == weekday)
    && (forall d :: start <= d < current && WeekdayName(d) == weekday ==> d in dates)
    && (forall i, j :: 0 <= i < j < |dates| ==> dates[i] < dates[j])
    && (forall i :: 0 < i < |dates| ==> dates[i] == dates[i - 1] + 7)
  }

  /** Looking at one more date keeps the loop's account true. */
  lemma WeeklyAdvance(dates: seq<int>, weekday: string, start: int, current: int)
    requires start <= current
    requires WeeklySoFar(dates, weekday, start, current)
    ensures WeekdayName(current) == weekday ==> WeeklySoFar(dates + [current], weekday, start, current + 1)
    ensures WeekdayName(current) != weekday ==> WeeklySoFar(dates, weekday, start, current + 1)
  {
    if WeekdayName(current) == weekday {
      StrideStep(dates, weekday, start, current);
    }
  }

  /**
   * The dates of the "Weekly" loop: from start to end inclusive, one day at
   * a time, every date whose weekday name is the chosen one.
   */
  method WeeklyDates(weekday: string, start: int, end: int) returns (dates: seq<int>)
    ensures forall i :: 0 <= i < |dates| ==> start <= dates[i] <= end && WeekdayName(dates[i]) == weekday
    ensures forall d :: start <= d <= end && WeekdayName(d) == weekday ==> d in dates
    ensures forall i, j :: 0 <= i < j < |dates| ==> dates[i] < dates[j]
    ensures forall i :: 0 < i < |dates| ==> dates[i] == dates[i - 1] + 7
    ensures start > end ==> dates == []
  {
    dates := [];
    var current := start;
    while current <= end
      invariant start <= current && (current <= end + 1 || current == start)
      invariant start > end ==> dates == []
      invariant WeeklySoFar(dates, weekday, start, current)
      decreases end - current
    {
      WeeklyAdvance(dates, weekday, start, current);
      if WeekdayName(current) == weekday {
        dates := dates + [current];
      }
      current := current + 1;
    }
  }

  /** Between the last emitted date and the current one, no date has the chosen name. */
  lemma NoMatchAfterLast(dates: seq<int>, weekday: string, start: int, current: int)
    requires |dates| > 0
    requires forall i :: 0 <= i < |dates| ==> start <= dates[i]
    requires forall i, j :: 0 <= i < j < |dates| ==> dates[i] < dates[j]
    requires forall d :: start <= d < current && WeekdayName(d) == weekday ==> d in dates
    ensures forall d :: dates[|dates| - 1] < d < current ==> WeekdayName(d) != weekday
  {
    var last := dates[|dates| - 1];
    forall d | last < d < current ensures WeekdayName(d) != weekday {
      assert d !in dates by {
        forall i | 0 <= i < |dates| ensures dates[i] != d {
          assert i == |dates| - 1 || dates[i] < last;
        }
      }
      assert start <= last;
    }
  }

  /** Emitting the next matching date keeps consecutive dates one week apart. */
  lemma StrideStep(dates: seq<int>, weekday: string, start: int, current: int)
    requires forall i :: 0 <= i < |dates| ==> start <= dates[i] < current && WeekdayName(dates[i]) == weekday
    requires forall i, j :: 0 <= i < j < |dates| ==> dates[i] < dates[j]
    requires forall i :: 0 < i < |dates| ==> dates[i] == dates[i - 1] + 7
    requires forall d :: start <= d < current && WeekdayName(d) == weekday ==> d in dates
    requires WeekdayName(current) == weekday
    ensures forall i :: 0 < i < |dates + [current]| ==> (dates + [current])[i] == (dates + [current])[i - 1] + 7
  {
    if |dates| > 0 {
      NoMatchAfterLast(dates, weekday, start, current);
      NextSameWeekday(dates[|dates| - 1], current);
    }
  }

  /** The rows fall on exactly the dates from start to end whose weekday name is `weekday`. */
  ghost predicate OnMatchingDates(rows: seq<ScheduleEntry>, weekday: string, start: int, end: int) {
    forall d :: (exists i :: 0 <= i < |rows| && rows[i].date == d) <==>
      start <= d <= end && WeekdayName(d) == weekday
  }

  /** Rows dated on exactly the dates from start to end with the chosen name are on the matching dates. */
  lemma MatchingRows(rows: seq<ScheduleEntry>, dates: seq<int>, weekday: string, start: int, end: int)
    requires |rows| == |dates|
    requires forall i :: 0 <= i < |dates| ==> rows[i].date == dates[i]
    requires forall i :: 0 <= i < |dates| ==> start <= dates[i] <= end && WeekdayName(dates[i]) == weekday
    requires forall d :: start <= d <= end && WeekdayName(d) == weekday ==> d in dates
    ensures OnMatchingDates(rows, weekday, start, end)
  {
    forall d | start <= d <= end && WeekdayName(d) == weekday
      ensures exists i :: 0 <= i < |rows| && rows[i].date == d
    {
      var i :| 0 <= i < |dates| && dates[i] == d;
      assert rows[i].date == d;
    }
  }

  /** "Weekly": one row on each date of the loop, in order. */
  method ExpandWeekly(t: Template, weekday: string, start: int, end: int) returns (rows: seq<ScheduleEntry>)
    ensures forall i :: 0 <= i < |rows| ==> FromTemplate(rows[i], t, Weekly(weekday, start, end))
    ensures OnMatchingDates(rows, weekday, start, end)
    ensures forall i, j :: 0 <= i < j < |rows| ==> rows[i].date < rows[j].date
    ensures forall i :: 0 < i < |rows| ==> rows[i].date == rows[i - 1].date + 7
    ensures start > end ==> rows == []
  {
    var dates := WeeklyDates(weekday, start, end);
    var kind := Weekly(weekday, start, end);
    rows := seq(|dates|, i requires 0 <= i < |dates| => Row(t, dates[i], kind));
    assert forall i :: 0 <= i < |rows| ==> rows[i].date == dates[i];
    MatchingRows(rows, dates, weekday, start, end);
  }

  /**
   * The rows one submission appends: exactly one on the chosen date for
   * "One-time", seven from today for "Daily", and every date of the range
   * with the chosen weekday name, ascending, for "Weekly".
   */
  method Expand(t: Template, kind: Recurrence, today: int) returns (rows: seq<ScheduleEntry>)
    ensures forall i :: 0 <= i < |rows| ==> FromTemplate(rows[i], t, kind)
    ensures kind.OneTime? ==> |rows| == 1 && rows[0].date == kind.date
    ensures kind.Daily? ==> |rows| == 7 && forall i :: 0 <= i < 7 ==> rows[i].date == today + i
    ensures kind.Weekly? ==>
      && OnMatchingDates(rows, kind.weekday, kind.start, kind.end)
      && (forall i, j :: 0 <= i < j < |rows| ==> rows[i].date < rows[j].date)
      && (forall i :: 0 < i < |rows| ==> rows[i].date == rows[i - 1].date + 7)
  {
    match kind
    case OneTime(date) =>
      rows := [Row(t, date, kind)];
    case Daily =>
      rows := ExpandDaily(t, today);
    case Weekly(weekday, start, end) =>
      rows := ExpandWeekly(t, weekday, start, end);
  }

  /** Mondays from 2025-01-06 (day 20094) to 2025-01-20 (day 20108): the 6th, the 13th and the 20th. */
  lemma MondaysOfJanuary2025(d: int)
    ensures 20094 <= d <= 20108 && WeekdayName(d) == "Monday" <==> d == 20094 || d == 20101 || d == 20108
  {
    SameWeekday(20094, d);
    assert WeekdayName(20094) == "Monday";
  }
}
