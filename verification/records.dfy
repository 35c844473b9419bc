/**
 * The two tables of the tracker, as rows already loaded from the
 * spreadsheet: the activity log ("Sheet1") and the schedule ("Schedule").
 *
 * Instants are counted in whole minutes of Indian Standard Time wall clock
 * since 1970-01-01 00:00; calendar dates are day numbers since 1970-01-01.
 */
module Records {
  import opened Order
  import opened Sorting

  const MinutesPerDay: int := 1440

  /**
   * Why a computation stopped with no result:
   * - InsufficientData: an empty table where a result needs a row (pandas raises);
   * - MissingColumn: a table without a column the computation reads;
   * - NoScheduledActivities, NoLoggedActivities: the warnings the schedule
   *   analysis shows instead of a table;
   * - DurationUnset: logging while the timer runs with nothing on it, when the
   *   manual duration was never read (a `NameError`, caught and shown).
   */
  datatype Error =
    | InsufficientData
    | MissingColumn(column: string)
    | NoScheduledActivities
    | NoLoggedActivities
    | DurationUnset

  /** The calendar date of a wall-clock minute count (`.dt.date`); `/` rounds down, as Python's `//` does. */
  function Day(minutes: int): int {
    minutes / MinutesPerDay
  }

  /** One row of the activity log: Timestamp, Priority, Activity_Description, Duration (hours), Remarks. */
  datatype Activity = Activity(timestamp: int, priority: string, description: string, duration: real, remarks: string)

  /** One row of the schedule: Date, Time ("HH:MM"), Priority, Planned_Activity, Planned_Duration, Schedule_Type, Status. */
  datatype ScheduleEntry = ScheduleEntry(
    date: int, time: string, priority: string, activity: string,
    plannedDuration: real, scheduleType: string, status: string)

  /** The join key of plan and actual: (calendar date, priority). */
  datatype Key = Key(date: int, priority: string)

  /** The order pandas sorts (Date, Priority) keys in: by date, then by priority label. */
  predicate KeyLess(a: Key, b: Key) {
    a.date < b.date || (a.date == b.date && StrLess(a.priority, b.priority))
  }

  lemma KeyLessIsStrictTotalOrder()
    ensures StrictTotalOrder(KeyLess)
  {
    StrLessIsStrictTotalOrder();
    forall a: Key, b: Key ensures a == b || KeyLess(a, b) || KeyLess(b, a) {
      assert a.priority == b.priority || StrLess(a.priority, b.priority) || StrLess(b.priority, a.priority);
    }
  }

  function Hours(a: Activity): real {
    a.duration
  }

  function PlannedHours(e: ScheduleEntry): real {
    e.plannedDuration
  }

  function ActivityPriority(a: Activity): string {
    a.priority
  }

  function EntryPriority(e: ScheduleEntry): string {
    e.priority
  }

  function ActivityDay(a: Activity): int {
    Day(a.timestamp)
  }

  function ActivityKey(a: Activity): Key {
    Key(Day(a.timestamp), a.priority)
  }

  function ScheduleKey(e: ScheduleEntry): Key {
    Key(e.date, e.priority)
  }

  /** `df[df['Priority'] == p]`: the rows of one priority, in their original order. */
  function OfPriority(rows: seq<Activity>, p: string): (r: seq<Activity>)
    ensures forall a :: a in r <==> a in rows && a.priority == p
    ensures |r| <= |rows|
  {
    if |rows| == 0 then []
    else (if rows[0].priority == p then [rows[0]] else []) + OfPriority(rows[1..], p)
  }

  /** `df['Priority'].unique()`, as a set. */
  function Priorities(rows: seq<Activity>): (r: set<string>)
    ensures forall p :: p in r <==> exists a :: a in rows && a.priority == p
  {
    set a | a in rows :: a.priority
  }

  /** The dates of the rows, row by row. */
  function DaysOf(rows: seq<Activity>): (r: seq<int>)
    ensures |r| == |rows|
    ensures forall i :: 0 <= i < |rows| ==> r[i] == Day(rows[i].timestamp)
  {
    seq(|rows|, i requires 0 <= i < |rows| => Day(rows[i].timestamp))
  }

  /** `sorted(df[df['Priority'] == p]['Date'].unique())`: the dates with an entry for `p`, ascending. */
  function DistinctDays(rows: seq<Activity>, p: string): (r: seq<int>)
    ensures Sorted(r, IntLess)
    ensures forall d :: d in r <==> exists a :: a in rows && a.priority == p && Day(a.timestamp) == d
  {
    IntLessIsStrictTotalOrder();
    var own := OfPriority(rows, p);
    var r := SortDistinct(DaysOf(own), IntLess);
    assert forall d :: d in DaysOf(own) <==> exists a :: a in own && Day(a.timestamp) == d by {
      forall d ensures d in DaysOf(own) <==> exists a :: a in own && Day(a.timestamp) == d {
        if d in DaysOf(own) {
          var i :| 0 <= i < |own| && DaysOf(own)[i] == d;
          assert own[i] in own;
        }
        if exists a :: a in own && Day(a.timestamp) == d {
          var a :| a in own && Day(a.timestamp) == d;
          var i :| 0 <= i < |own| && own[i] == a;
          assert DaysOf(own)[i] == d;
        }
      }
    }
    r
  }

  /** A priority present in the log has at least one date. */
  lemma DaysOfPresentPriorities(rows: seq<Activity>)
    ensures forall p :: p in Priorities(rows) ==> |DistinctDays(rows, p)| > 0
  {
    forall p | p in Priorities(rows) ensures |DistinctDays(rows, p)| > 0 {
      var a :| a in rows && a.priority == p;
      assert Day(a.timestamp) in DistinctDays(rows, p);
    }
  }
}
