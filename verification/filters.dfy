/**
 * Row filters and the "Time Period" selector: "Last 7 days", "Last 30
 * days", "Last 90 days" or "All time". The dashboard compares instants with
 * "now" minus the period; the plan-vs-actual analysis compares calendar
 * dates with the date of that instant, for the log and the schedule
 * separately.
 */
module Filters {
  import opened Records

  /** The selected period: everything, or the last `days` days. */
  datatype Window = AllTime | LastDays(days: nat)

  /** `xs[mask]`: the rows that pass, in their original order. */
  function Filter<T(!new)>(xs: seq<T>, keep: T -> bool): (r: seq<T>)
    ensures |r| <= |xs|
    ensures forall x :: x in r <==> x in xs && keep(x)
    ensures forall x :: multiset(r)[x] == if keep(x) then multiset(xs)[x] else 0
  {
    if |xs| == 0 then []
    else
      var rest := Filter(xs[1..], keep);
      assert xs == [xs[0]] + xs[1..];
      if keep(xs[0]) then [xs[0]] + rest else rest
  }

  /** Filtering a concatenation filters each part: the kept rows stay in their original order. */
  lemma {:induction false} FilterAppend<T(!new)>(a: seq<T>, b: seq<T>, keep: T -> bool)
    ensures Filter(a + b, keep) == Filter(a, keep) + Filter(b, keep)
    decreases |a|
  {
    if |a| > 0 {
      assert (a + b)[1..] == a[1..] + b;
      FilterAppend(a[1..], b, keep);
    } else {
      assert a + b == b;
    }
  }

  /** A filter that keeps every row is the identity. */
  lemma {:induction false} FilterKeepsAll<T(!new)>(xs: seq<T>, keep: T -> bool)
    requires forall x :: x in xs ==> keep(x)
    ensures Filter(xs, keep) == xs
    decreases |xs|
  {
    if |xs| > 0 {
      assert xs[0] in xs;
      FilterKeepsAll(xs[1..], keep);
      assert xs == [xs[0]] + xs[1..];
    }
  }

  /** Filtering twice is filtering once. */
  lemma FilterIdempotent<T(!new)>(xs: seq<T>, keep: T -> bool)
    ensures Filter(Filter(xs, keep), keep) == Filter(xs, keep)
  {
    FilterKeepsAll(Filter(xs, keep), keep);
  }

  /** The first minute still inside the last `days` days: `now - timedelta(days=days)`. */
  function Cutoff(now: int, days: nat): (c: int)
    ensures now - c == days * MinutesPerDay
  {
    now - days * MinutesPerDay
  }

  /** The dashboard filter: rows at or after the cutoff instant; everything for "All time". */
  function DashboardWindow(rows: seq<Activity>, w: Window, now: int): (r: seq<Activity>)
    ensures w.AllTime? ==> r == rows
    ensures w.LastDays? ==> forall a :: a in r <==> a in rows && a.timestamp >= Cutoff(now, w.days)
    ensures w.LastDays? ==> forall a :: (multiset(r)[a] ==
      if a.timestamp >= Cutoff(now, w.days) then multiset(rows)[a] else 0)
    ensures multiset(r) <= multiset(rows)
  {
    match w
    case AllTime => rows
    case LastDays(n) => Filter(rows, (a: Activity) => a.timestamp >= Cutoff(now, n))
  }

  /** `(datetime.now(IST) - timedelta(days=days)).date()`. */
  function CutoffDay(now: int, days: nat): int {
    Day(Cutoff(now, days))
  }

  /** The log side of the plan-vs-actual window: rows whose calendar date is on or after the cutoff date. */
  function LogWindow(rows: seq<Activity>, w: Window, now: int): (r: seq<Activity>)
    ensures w.AllTime? ==> r == rows
    ensures w.LastDays? ==> forall a :: a in r <==> a in rows && Day(a.timestamp) >= CutoffDay(now, w.days)
    ensures w.LastDays? ==> forall a :: (multiset(r)[a] ==
      if Day(a.timestamp) >= CutoffDay(now, w.days) then multiset(rows)[a] else 0)
    ensures multiset(r) <= multiset(rows)
  {
    match w
    case AllTime => rows
    case LastDays(n) => Filter(rows, (a: Activity) => Day(a.timestamp) >= CutoffDay(now, n))
  }

  /** The schedule side of the plan-vs-actual window, applied on its own: entries dated on or after the cutoff date. */
  function ScheduleWindow(entries: seq<ScheduleEntry>, w: Window, now: int): (r: seq<ScheduleEntry>)
    ensures w.AllTime? ==> r == entries
    ensures w.LastDays? ==> forall e :: e in r <==> e in entries && e.date >= CutoffDay(now, w.days)
    ensures w.LastDays? ==> forall e :: (multiset(r)[e] ==
      if e.date >= CutoffDay(now, w.days) then multiset(entries)[e] else 0)
    ensures multiset(r) <= multiset(entries)
  {
    match w
    case AllTime => entries
    case LastDays(n) => Filter(entries, (e: ScheduleEntry) => e.date >= CutoffDay(now, n))
  }

  /**
   * The windows keep the rows' order: the window of two tables one after the
   * other is the window of the first followed by the window of the second.
   * With the multiplicities above, this pins each window down completely.
   */
  lemma DashboardWindowKeepsOrder(a: seq<Activity>, b: seq<Activity>, w: Window, now: int)
    ensures DashboardWindow(a + b, w, now) == DashboardWindow(a, w, now) + DashboardWindow(b, w, now)
  {
    if w.LastDays? {
      FilterAppend(a, b, (x: Activity) => x.timestamp >= Cutoff(now, w.days));
    }
  }

  /** The log side of the plan-vs-actual window keeps the rows' order. */
  lemma LogWindowKeepsOrder(a: seq<Activity>, b: seq<Activity>, w: Window, now: int)
    ensures LogWindow(a + b, w, now) == LogWindow(a, w, now) + LogWindow(b, w, now)
  {
    if w.LastDays? {
      FilterAppend(a, b, (x: Activity) => Day(x.timestamp) >= CutoffDay(now, w.days));
    }
  }

  /** The schedule side of the plan-vs-actual window keeps the entries' order. */
  lemma ScheduleWindowKeepsOrder(c: seq<ScheduleEntry>, d: seq<ScheduleEntry>, w: Window, now: int)
    ensures ScheduleWindow(c + d, w, now) == ScheduleWindow(c, w, now) + ScheduleWindow(d, w, now)
  {
    if w.LastDays? {
      FilterAppend(c, d, (e: ScheduleEntry) => e.date >= CutoffDay(now, w.days));
    }
  }

  /** Days never run backwards: a later minute is never on an earlier date. */
  lemma DayMonotone(a: int, b: int)
    requires a <= b
    ensures Day(a) <= Day(b)
  {
    var qa, qb := a / MinutesPerDay, b / MinutesPerDay;
    assert a == qa * MinutesPerDay + a % MinutesPerDay;
    assert b == qb * MinutesPerDay + b % MinutesPerDay;
  }

  /**
   * The date window is the instant window widened back to midnight: it keeps
   * a row exactly when its timestamp is at or after the start of the cutoff
   * date, so it keeps every row the dashboard keeps and possibly more.
   */
  lemma LogWindowStartsAtMidnight(rows: seq<Activity>, n: nat, now: int)
    ensures forall a :: a in LogWindow(rows, LastDays(n), now) <==>
      a in rows && a.timestamp >= CutoffDay(now, n) * MinutesPerDay
    ensures forall a :: a in DashboardWindow(rows, LastDays(n), now) ==> a in LogWindow(rows, LastDays(n), now)
  {
    var c := Cutoff(now, n);
    forall a | a in rows
      ensures Day(a.timestamp) >= Day(c) <==> a.timestamp >= Day(c) * MinutesPerDay
    {
      var t := a.timestamp;
      assert t == (t / MinutesPerDay) * MinutesPerDay + t % MinutesPerDay;
      assert c == (c / MinutesPerDay) * MinutesPerDay + c % MinutesPerDay;
    }
    forall a | a in DashboardWindow(rows, LastDays(n), now)
      ensures a in LogWindow(rows, LastDays(n), now)
    {
      DayMonotone(c, a.timestamp);
    }
  }
}
