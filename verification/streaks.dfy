/**
 * `calculate_streaks`: per priority, the walk over its ascending distinct
 * activity dates that reports the run ending at the last date, the longest
 * run of consecutive days, and the last date.
 */
module Streaks {
  import opened Order
  import opened Sorting
  import opened Records

  datatype Streak = Streak(current: nat, longest: nat, lastActivity: int)

  /** The dates at positions lo..hi (inclusive) follow one another day by day. */
  ghost predicate Consecutive(ds: seq<int>, lo: int, hi: int) {
    0 <= lo <= hi < |ds| && forall k :: lo <= k < hi ==> ds[k + 1] == ds[k] + 1
  }

  /** The longest consecutive run that ends at position j has length len. */
  ghost predicate RunEndsAt(ds: seq<int>, j: int, len: int) {
    && 1 <= len <= j + 1
    && Consecutive(ds, j - len + 1, j)
    && (j - len + 1 == 0 || ds[j - len + 1] != ds[j - len] + 1)
  }

  /** The longest consecutive run among the first n dates has length len. */
  ghost predicate LongestRunWithin(ds: seq<int>, n: int, len: int) {
    && (exists lo, hi :: hi < n && Consecutive(ds, lo, hi) && hi - lo + 1 == len)
    && (forall lo, hi :: hi < n && Consecutive(ds, lo, hi) ==> hi - lo + 1 <= len)
  }

  /** What the walk reports about the dates ds, stated without the walk. */
  ghost predicate IsStreak(ds: seq<int>, s: Streak) {
    && RunEndsAt(ds, |ds| - 1, s.current)
    && LongestRunWithin(ds, |ds|, s.longest)
    && s.lastActivity in ds
    && (forall d :: d in ds ==> d <= s.lastActivity)
  }

  /** A run ending at j that starts before the start of the longest run ending at j does not exist. */
  lemma RunStartsNoEarlier(ds: seq<int>, j: int, len: int, lo: int)
    requires RunEndsAt(ds, j, len)
    requires Consecutive(ds, lo, j)
    ensures j - lo + 1 <= len
  {
    assert j - len + 1 == 0 || ds[j - len + 1] != ds[j - len] + 1;
  }

  /** One step of the walk when the next date is the day after the last. */
  lemma ExtendStep(ds: seq<int>, i: int, current: nat, longest: nat)
    requires 1 <= i < |ds|
    requires ds[i] - ds[i - 1] == 1
    requires RunEndsAt(ds, i - 1, current)
    requires LongestRunWithin(ds, i, longest)
    ensures RunEndsAt(ds, i, current + 1)
    ensures LongestRunWithin(ds, i + 1, if longest < current + 1 then current + 1 else longest)
  {
    var start := i - current;
    assert Consecutive(ds, start, i);
    var best := if longest < current + 1 then current + 1 else longest;
    var lo0, hi0 :| hi0 < i && Consecutive(ds, lo0, hi0) && hi0 - lo0 + 1 == longest;
    if longest < current + 1 {
      assert i < i + 1 && Consecutive(ds, start, i) && i - start + 1 == best;
    } else {
      assert hi0 < i + 1 && Consecutive(ds, lo0, hi0) && hi0 - lo0 + 1 == best;
    }
    forall lo, hi | hi < i + 1 && Consecutive(ds, lo, hi) ensures hi - lo + 1 <= best {
      if hi == i {
        RunStartsNoEarlier(ds, i, current + 1, lo);
      }
    }
  }

  /** One step of the walk when the next date is not the day after the last. */
  lemma ResetStep(ds: seq<int>, i: int, current: nat, longest: nat)
    requires 1 <= i < |ds|
    requires ds[i] - ds[i - 1] != 1
    requires LongestRunWithin(ds, i, longest)
    ensures RunEndsAt(ds, i, 1)
    ensures LongestRunWithin(ds, i + 1, longest)
  {
    assert Consecutive(ds, i, i);
    var lo0, hi0 :| hi0 < i && Consecutive(ds, lo0, hi0) && hi0 - lo0 + 1 == longest;
    assert hi0 < i + 1 && Consecutive(ds, lo0, hi0) && hi0 - lo0 + 1 == longest;
    forall lo, hi | hi < i + 1 && Consecutive(ds, lo, hi) ensures hi - lo + 1 <= longest {
      if hi == i {
        RunStartsNoEarlier(ds, i, 1, lo);
      }
    }
  }

  /** One iteration of the loop: the counters after looking at the date at position i. */
  function Next(ds: seq<int>, i: nat, current: nat, longest: nat): (r: (nat, nat))
    requires 1 <= i < |ds|
    requires RunEndsAt(ds, i - 1, current)
    requires LongestRunWithin(ds, i, longest)
    ensures RunEndsAt(ds, i, r.0)
    ensures LongestRunWithin(ds, i + 1, r.1)
  {
    if ds[i] - ds[i - 1] == 1 then
      ExtendStep(ds, i, current, longest);
      (current + 1, if longest < current + 1 then current + 1 else longest)
    else
      ResetStep(ds, i, current, longest);
      (1, longest)
  }

  /**
   * The loop over `priority_dates[1:]` from position i on, with `current`
   * and `longest` the values of `current_streak` and `max_streak` so far.
   */
  function Walk(ds: seq<int>, i: nat, current: nat, longest: nat): (r: (nat, nat))
    requires 1 <= i <= |ds|
    requires RunEndsAt(ds, i - 1, current)
    requires LongestRunWithin(ds, i, longest)
    ensures RunEndsAt(ds, |ds| - 1, r.0)
    ensures LongestRunWithin(ds, |ds|, r.1)
    decreases |ds| - i
  {
    if i == |ds| then (current, longest)
    else
      var n := Next(ds, i, current, longest);
      Walk(ds, i + 1, n.0, n.1)
  }

  /** `max(priority_dates)`. */
  function Latest(ds: seq<int>): (m: int)
    requires |ds| > 0
    ensures m in ds
    ensures forall d :: d in ds ==> d <= m
  {
    if |ds| == 1 then ds[0]
    else
      var rest := Latest(ds[1..]);
      assert ds == [ds[0]] + ds[1..];
      if ds[0] < rest then rest else ds[0]
  }

  /** The streak record of one priority's ascending distinct dates. */
  function StreakOf(ds: seq<int>): (s: Streak)
    requires |ds| > 0
    ensures Summarises(ds, s)
  {
    assert Consecutive(ds, 0, 0);
    assert forall lo, hi :: hi < 1 && Consecutive(ds, lo, hi) ==> hi - lo + 1 <= 1;
    var r := Walk(ds, 1, 1, 1);
    var start := |ds| - r.0;
    assert Consecutive(ds, start, |ds| - 1);
    Streak(r.0, r.1, Latest(ds))
  }

  /** The record describes the dates, and its counts lie between 1 and the number of dates. */
  ghost predicate Summarises(ds: seq<int>, s: Streak) {
    IsStreak(ds, s) && 1 <= s.current <= s.longest <= |ds|
  }

  /** The record for priority p; a priority with no dates has no entry, so the zero record is never looked at. */
  function StreakFor(rows: seq<Activity>, p: string): (s: Streak)
    ensures p in Priorities(rows) ==> Summarises(DistinctDays(rows, p), s)
  {
    var ds := DistinctDays(rows, p);
    if |ds| == 0 then
      DaysOfPresentPriorities(rows);
      Streak(0, 0, 0)
    else StreakOf(ds)
  }

  /**
   * `calculate_streaks`: `{}` for an empty log, otherwise one entry per
   * priority present, each describing that priority's distinct dates.
   */
  function CalculateStreaks(rows: seq<Activity>): (r: map<string, Streak>)
    ensures forall p :: p in r <==> p in Priorities(rows)
    ensures |rows| == 0 ==> r == map[]
    ensures forall p :: p in r ==> Summarises(DistinctDays(rows, p), r[p])
  {
    if |rows| == 0 then map[]
    else map p | p in Priorities(rows) :: StreakFor(rows, p)
  }
}
