/**
 * `calculate_kpis`: total hours, hours per day over the elapsed span, the
 * per-priority average over the days that priority has entries, and the
 * most active priority.
 */
module Kpis {
  import opened Wrappers
  import opened Order
  import opened Sorting
  import opened Sums
  import opened Records

  datatype Kpis = Kpis(
    totalHours: real,
    avgHoursPerDay: real,
    priorityAverages: map<string, real>,
    mostActivePriority: string)

  /** `df['Duration'].sum()`. */
  function TotalHours(rows: seq<Activity>): real {
    Sum(rows, Hours)
  }

  /** The total does not depend on the order the spreadsheet returns the rows in. */
  lemma TotalHoursPermutation(a: seq<Activity>, b: seq<Activity>)
    requires multiset(a) == multiset(b)
    ensures TotalHours(a) == TotalHours(b)
  {
    SumPermutation(a, b, Hours);
  }

  /** `df['Timestamp'].min()`. */
  function Earliest(rows: seq<Activity>): (t: int)
    requires |rows| > 0
    ensures exists a :: a in rows && a.timestamp == t
    ensures forall a :: a in rows ==> t <= a.timestamp
  {
    if |rows| == 1 then rows[0].timestamp
    else
      var rest := Earliest(rows[1..]);
      assert rows == [rows[0]] + rows[1..];
      if rows[0].timestamp < rest then rows[0].timestamp else rest
  }

  /** `df['Timestamp'].max()`. */
  function LatestTimestamp(rows: seq<Activity>): (t: int)
    requires |rows| > 0
    ensures exists a :: a in rows && a.timestamp == t
    ensures forall a :: a in rows ==> a.timestamp <= t
  {
    if |rows| == 1 then rows[0].timestamp
    else
      var rest := LatestTimestamp(rows[1..]);
      assert rows == [rows[0]] + rows[1..];
      if rows[0].timestamp > rest then rows[0].timestamp else rest
  }

  /**
   * `(max - min).days + 1`: whole days elapsed between the earliest and the
   * latest entry, plus one. It counts elapsed time, not calendar dates: two
   * entries 2 hours apart across midnight span one day.
   */
  function SpanDays(rows: seq<Activity>): (n: int)
    requires |rows| > 0
    ensures n >= 1
    ensures (n - 1) * MinutesPerDay <= LatestTimestamp(rows) - Earliest(rows) < n * MinutesPerDay
  {
    (LatestTimestamp(rows) - Earliest(rows)) / MinutesPerDay + 1
  }

  /** `total_hours / date_range if date_range > 0 else 0`; the span is never 0, so the guard never fires. */
  function AvgHoursPerDay(rows: seq<Activity>): (avg: real)
    requires |rows| > 0
    ensures avg == TotalHours(rows) / SpanDays(rows) as real
  {
    var span := SpanDays(rows);
    if span > 0 then TotalHours(rows) / span as real else 0.0
  }

  /** Dividing by a whole number of days, at least one. */
  lemma PerDay(total: real, days: int)
    requires days >= 1
    ensures (total / days as real) * days as real == total
    ensures total >= 0.0 ==> 0.0 <= total / days as real <= total
    ensures days == 1 ==> total / days as real == total
  {
  }

  /** The average per day times the span gives back the total. */
  lemma AvgTimesSpan(rows: seq<Activity>)
    requires |rows| > 0
    ensures AvgHoursPerDay(rows) * SpanDays(rows) as real == TotalHours(rows)
  {
    PerDay(TotalHours(rows), SpanDays(rows));
  }

  /**
   * The average never exceeds a non-negative total, and equals it when every
   * entry lies within 24 hours of the earliest.
   */
  lemma AvgHoursBounds(rows: seq<Activity>)
    requires |rows| > 0
    ensures LatestTimestamp(rows) - Earliest(rows) < MinutesPerDay ==> AvgHoursPerDay(rows) == TotalHours(rows)
    ensures TotalHours(rows) >= 0.0 ==> 0.0 <= AvgHoursPerDay(rows) <= TotalHours(rows)
  {
    var total, span := TotalHours(rows), SpanDays(rows);
    PerDay(total, span);
    if LatestTimestamp(rows) - Earliest(rows) < MinutesPerDay {
      assert span == 1;
    }
  }

  /** `df.groupby('Priority')['Duration'].sum()[p]`. */
  function PriorityTotal(rows: seq<Activity>, p: string): real {
    Sum(OfPriority(rows, p), Hours)
  }

  /**
   * `groupby(['Date', 'Priority']).sum()` then `groupby('Priority').mean()`:
   * the mean of the priority's day totals over the dates it has entries on.
   */
  function PriorityAverage(rows: seq<Activity>, p: string): (avg: real)
    requires p in Priorities(rows)
    ensures |DistinctDays(rows, p)| > 0
    ensures avg == PriorityTotal(rows, p) / |DistinctDays(rows, p)| as real
  {
    var days := DistinctDays(rows, p);
    DaysOfPresentPriorities(rows);
    assert |days| > 0;
    DayTotalsAddUp(rows, p);
    var s := SumOver(OfPriority(rows, p), ActivityDay, Hours, days);
    assert s == PriorityTotal(rows, p);
    s / |days| as real
  }

  /** The day totals of a priority add up to its total: grouping by date loses and duplicates nothing. */
  lemma DayTotalsAddUp(rows: seq<Activity>, p: string)
    ensures SumOver(OfPriority(rows, p), ActivityDay, Hours, DistinctDays(rows, p)) == PriorityTotal(rows, p)
  {
    var own := OfPriority(rows, p);
    var days := DistinctDays(rows, p);
    IntLessIsStrictTotalOrder();
    SortedDistinct(days, IntLess);
    forall x | x in own ensures ActivityDay(x) in days {
      assert x in rows && x.priority == p;
    }
    Conservation(own, ActivityDay, Hours, days);
  }

  /** `priority_avgs.to_dict()`: one average per priority present. */
  function PriorityAverages(rows: seq<Activity>): (m: map<string, real>)
    ensures forall p :: p in m <==> p in Priorities(rows)
    ensures forall p :: p in m ==>
      |DistinctDays(rows, p)| > 0 && m[p] == PriorityTotal(rows, p) / |DistinctDays(rows, p)| as real
  {
    DaysOfPresentPriorities(rows);
    map p | p in Priorities(rows) :: PriorityAverage(rows, p)
  }

  /**
   * p is at least as good a pick as q for `idxmax` over the priority totals
   * indexed in sorted order: a larger total, or an equal total and a label
   * that does not sort after q's.
   */
  ghost predicate Preferred(rows: seq<Activity>, p: string, q: string) {
    PriorityTotal(rows, q) < PriorityTotal(rows, p)
    || (PriorityTotal(rows, q) == PriorityTotal(rows, p) && !StrLess(q, p))
  }

  /** `idxmax` of the priority totals: a present priority with maximal total, the first in sorted order on a tie. */
  ghost predicate IsMostActive(rows: seq<Activity>, p: string) {
    p in Priorities(rows) && forall q :: q in Priorities(rows) ==> Preferred(rows, p, q)
  }

  lemma PreferredTransitive(rows: seq<Activity>, a: string, b: string, c: string)
    requires Preferred(rows, a, b) && Preferred(rows, b, c)
    ensures Preferred(rows, a, c)
  {
    if PriorityTotal(rows, c) == PriorityTotal(rows, a) && a != b && b != c {
      StrLessTrichotomous(a, b);
      StrLessTrichotomous(b, c);
      StrLessTransitive(a, b, c);
      StrLessAsymmetric(a, c);
    }
  }

  /** The pick after looking at row i: its priority when that beats `best`, otherwise `best`. */
  function NextPick(rows: seq<Activity>, i: nat, best: string): (r: string)
    requires i < |rows|
    ensures r == best || r == rows[i].priority
  {
    var q := rows[i].priority;
    var t, tb := PriorityTotal(rows, q), PriorityTotal(rows, best);
    if tb < t || (t == tb && StrLess(q, best)) then q else best
  }

  /** Looking at row i keeps the pick at least as good as every row seen. */
  lemma ScanStep(rows: seq<Activity>, i: nat, best: string)
    requires i < |rows|
    requires forall j :: 0 <= j < i ==> Preferred(rows, best, rows[j].priority)
    ensures forall j :: 0 <= j < i + 1 ==> Preferred(rows, NextPick(rows, i, best), rows[j].priority)
  {
    var q := rows[i].priority;
    if NextPick(rows, i, best) == q && q != best {
      SwitchKeepsPick(rows, i, best);
    } else if q != best {
      assert Preferred(rows, best, q);
    } else {
      StrLessIrreflexive(q);
    }
  }

  /** The scan for the most active priority over rows[i..], `best` the pick among the earlier rows. */
  function MostActiveFrom(rows: seq<Activity>, i: nat, best: string): (r: string)
    requires i <= |rows|
    requires best in Priorities(rows)
    requires forall j :: 0 <= j < i ==> Preferred(rows, best, rows[j].priority)
    ensures IsMostActive(rows, r)
    decreases |rows| - i
  {
    if i == |rows| then
      PickCoversAll(rows, best);
      best
    else
      assert rows[i] in rows;
      ScanStep(rows, i, best);
      MostActiveFrom(rows, i + 1, NextPick(rows, i, best))
  }

  lemma PickCoversAll(rows: seq<Activity>, best: string)
    requires forall j :: 0 <= j < |rows| ==> Preferred(rows, best, rows[j].priority)
    ensures forall q :: q in Priorities(rows) ==> Preferred(rows, best, q)
  {
    forall q | q in Priorities(rows) ensures Preferred(rows, best, q) {
      var a :| a in rows && a.priority == q;
      var j :| 0 <= j < |rows| && rows[j] == a;
    }
  }

  lemma SwitchKeepsPick(rows: seq<Activity>, i: nat, best: string)
    requires i < |rows|
    requires forall j :: 0 <= j < i ==> Preferred(rows, best, rows[j].priority)
    requires var q := rows[i].priority;
      PriorityTotal(rows, best) < PriorityTotal(rows, q)
      || (PriorityTotal(rows, q) == PriorityTotal(rows, best) && StrLess(q, best))
    ensures forall j :: 0 <= j < i + 1 ==> Preferred(rows, rows[i].priority, rows[j].priority)
  {
    var q := rows[i].priority;
    if PriorityTotal(rows, q) == PriorityTotal(rows, best) {
      StrLessAsymmetric(q, best);
    }
    assert Preferred(rows, q, best);
    forall j | 0 <= j < i + 1 ensures Preferred(rows, q, rows[j].priority) {
      if j < i {
        PreferredTransitive(rows, q, best, rows[j].priority);
      } else {
        StrLessIrreflexive(q);
      }
    }
  }

  /** `df.groupby('Priority')['Duration'].sum().idxmax()`, for a non-empty log. */
  function MostActive(rows: seq<Activity>): (p: string)
    requires |rows| > 0
    ensures IsMostActive(rows, p)
  {
    assert rows[0] in rows;
    StrLessIrreflexive(rows[0].priority);
    MostActiveFrom(rows, 1, rows[0].priority)
  }

  /** The tie-break leaves no choice: at most one priority is the most active. */
  lemma MostActiveUnique(rows: seq<Activity>, p: string, q: string)
    requires IsMostActive(rows, p) && IsMostActive(rows, q)
    ensures p == q
  {
    assert Preferred(rows, p, q) && Preferred(rows, q, p);
    StrLessTrichotomous(p, q);
  }

  /** What the indicators of a non-empty log are, stated without the computation. */
  ghost predicate Describes(rows: seq<Activity>, k: Kpis)
    requires |rows| > 0
  {
    && k.totalHours == TotalHours(rows)
    && k.avgHoursPerDay == TotalHours(rows) / SpanDays(rows) as real
    && (forall p :: p in k.priorityAverages <==> p in Priorities(rows))
    && (forall p :: p in k.priorityAverages ==>
          |DistinctDays(rows, p)| > 0
          && k.priorityAverages[p] == PriorityTotal(rows, p) / |DistinctDays(rows, p)| as real)
    && IsMostActive(rows, k.mostActivePriority)
  }

  /**
   * `calculate_kpis`. pandas raises on an empty log (`idxmax` of an empty
   * series), which is InsufficientData here.
   */
  function CalculateKpis(rows: seq<Activity>): (r: Result<Kpis, Error>)
    ensures r.Failure? <==> |rows| == 0
    ensures r.Failure? ==> r.error == InsufficientData
    ensures r.Success? ==> Describes(rows, r.value)
  {
    if |rows| == 0 then Failure(InsufficientData)
    else
      Success(Kpis(TotalHours(rows), AvgHoursPerDay(rows), PriorityAverages(rows), MostActive(rows)))
  }
}
