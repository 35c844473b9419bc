/**
 * Plan against actual: the full outer join of the schedule's planned hours
 * and the log's hours on (calendar date, priority), with 0 on the side that
 * has no rows for a key, and the completion figures of
 * `analyze_schedule_vs_actual`.
 */
module Reconcile {
  import opened Wrappers
  import opened Order
  import opened Sorting
  import opened Sums
  import opened Records

  /** One row of the joined table: the key, the hours planned and the hours logged. */
  datatype Joined = Joined(key: Key, planned: real, actual: real)

  function JoinedPlanned(j: Joined): real {
    j.planned
  }

  function JoinedActual(j: Joined): real {
    j.actual
  }

  function JoinedPriority(j: Joined): string {
    j.key.priority
  }

  /** Hours planned for key k: that group of `groupby(['Date', 'Priority'])['Planned_Duration'].sum()`. */
  function PlannedAt(sched: seq<ScheduleEntry>, k: Key): real {
    SumAt(sched, ScheduleKey, PlannedHours, k)
  }

  /** Hours logged for key k: that group of `groupby(['Date', 'Priority'])['Duration'].sum()`. */
  function ActualAt(acts: seq<Activity>, k: Key): real {
    SumAt(acts, ActivityKey, Hours, k)
  }

  /** Some log row has key k. */
  ghost predicate Logged(acts: seq<Activity>, k: Key) {
    exists a :: a in acts && ActivityKey(a) == k
  }

  /** Some schedule row has key k. */
  ghost predicate Scheduled(sched: seq<ScheduleEntry>, k: Key) {
    exists e :: e in sched && ScheduleKey(e) == k
  }

  /** The key of every row, row by row. */
  function KeysOf<T(!new)>(xs: seq<T>, key: T -> Key): (r: seq<Key>)
    ensures |r| == |xs|
    ensures forall i :: 0 <= i < |xs| ==> r[i] == key(xs[i])
    ensures forall k :: k in r <==> exists x :: x in xs && key(x) == k
  {
    var r := seq(|xs|, i requires 0 <= i < |xs| => key(xs[i]));
    assert forall k :: k in r <==> exists x :: x in xs && key(x) == k by {
      forall k ensures k in r <==> exists x :: x in xs && key(x) == k {
        if k in r {
          var i :| 0 <= i < |r| && r[i] == k;
          assert xs[i] in xs;
        }
        if exists x :: x in xs && key(x) == k {
          var x :| x in xs && key(x) == k;
          var i :| 0 <= i < |xs| && xs[i] == x;
          assert r[i] == k;
        }
      }
    }
    r
  }

  /** The union of the keys of both tables, each once, in the (date, priority) order of the merge. */
  function JoinKeys(acts: seq<Activity>, sched: seq<ScheduleEntry>): (ks: seq<Key>)
    ensures Sorted(ks, KeyLess)
    ensures forall k :: k in ks <==> Logged(acts, k) || Scheduled(sched, k)
  {
    KeyLessIsStrictTotalOrder();
    SortDistinct(KeysOf(sched, ScheduleKey) + KeysOf(acts, ActivityKey), KeyLess)
  }

  /** The joined rows for the keys ks, in that order. */
  function RowsFor(acts: seq<Activity>, sched: seq<ScheduleEntry>, ks: seq<Key>): (r: seq<Joined>)
    ensures |r| == |ks|
    ensures forall i :: 0 <= i < |ks| ==> r[i] == Joined(ks[i], PlannedAt(sched, ks[i]), ActualAt(acts, ks[i]))
  {
    if |ks| == 0 then []
    else [Joined(ks[0], PlannedAt(sched, ks[0]), ActualAt(acts, ks[0]))] + RowsFor(acts, sched, ks[1..])
  }

  /**
   * `pd.merge(planned, actual, on=['Date', 'Priority'], how='outer')` with
   * the gaps filled with 0: one row per key of either table, in ascending
   * (date, priority) order, carrying that key's planned and logged hours.
   */
  function OuterJoin(acts: seq<Activity>, sched: seq<ScheduleEntry>): (r: seq<Joined>)
    ensures forall i, j :: 0 <= i < j < |r| ==> KeyLess(r[i].key, r[j].key)
    ensures forall i, j :: 0 <= i < j < |r| ==> r[i].key.date <= r[j].key.date
    ensures forall k :: (exists i :: 0 <= i < |r| && r[i].key == k) <==> Logged(acts, k) || Scheduled(sched, k)
    ensures forall i :: 0 <= i < |r| ==>
      r[i].planned == PlannedAt(sched, r[i].key) && r[i].actual == ActualAt(acts, r[i].key)
  {
    var ks := JoinKeys(acts, sched);
    var r := RowsFor(acts, sched, ks);
    assert forall k :: (exists i :: 0 <= i < |r| && r[i].key == k) <==> k in ks by {
      forall k ensures (exists i :: 0 <= i < |r| && r[i].key == k) <==> k in ks {
        if k in ks {
          var i :| 0 <= i < |ks| && ks[i] == k;
          assert r[i].key == k;
        }
      }
    }
    r
  }

  /** The side of the join with no rows for a key reads 0 there. */
  lemma MissingSideIsZero(acts: seq<Activity>, sched: seq<ScheduleEntry>, k: Key)
    ensures !Logged(acts, k) ==> ActualAt(acts, k) == 0.0
    ensures !Scheduled(sched, k) ==> PlannedAt(sched, k) == 0.0
  {
    if !Logged(acts, k) {
      SumAtAbsent(acts, ActivityKey, Hours, k);
    }
    if !Scheduled(sched, k) {
      SumAtAbsent(sched, ScheduleKey, PlannedHours, k);
    }
  }

  lemma {:induction false} RowsForSums(acts: seq<Activity>, sched: seq<ScheduleEntry>, ks: seq<Key>)
    ensures Sum(RowsFor(acts, sched, ks), JoinedPlanned) == SumOver(sched, ScheduleKey, PlannedHours, ks)
    ensures Sum(RowsFor(acts, sched, ks), JoinedActual) == SumOver(acts, ActivityKey, Hours, ks)
    decreases |ks|
  {
    if |ks| > 0 {
      RowsForSums(acts, sched, ks[1..]);
      assert RowsFor(acts, sched, ks)[1..] == RowsFor(acts, sched, ks[1..]);
    }
  }

  /** The join keys repeat nothing. */
  lemma JoinKeysDistinct(acts: seq<Activity>, sched: seq<ScheduleEntry>)
    ensures Distinct(JoinKeys(acts, sched))
  {
    KeyLessIsStrictTotalOrder();
    SortedDistinct(JoinKeys(acts, sched), KeyLess);
  }

  /**
   * The join loses and duplicates nothing: its planned column adds up to
   * the schedule's planned hours and its actual column to the logged hours.
   */
  lemma JoinConservesTotals(acts: seq<Activity>, sched: seq<ScheduleEntry>)
    ensures Sum(OuterJoin(acts, sched), JoinedPlanned) == Sum(sched, PlannedHours)
    ensures Sum(OuterJoin(acts, sched), JoinedActual) == Sum(acts, Hours)
  {
    var ks := JoinKeys(acts, sched);
    JoinKeysDistinct(acts, sched);
    RowsForSums(acts, sched, ks);
    assert forall e :: e in sched ==> ScheduleKey(e) in ks;
    assert forall a :: a in acts ==> ActivityKey(a) in ks;
    Conservation(sched, ScheduleKey, PlannedHours, ks);
    Conservation(acts, ActivityKey, Hours, ks);
  }

  /**
   * `Duration / Planned_Duration * 100` where the planned hours are
   * positive and 0 elsewhere; the rounding to 2 places is left out.
   */
  function CompletionRate(planned: real, actual: real): (rate: real)
    ensures planned <= 0.0 ==> rate == 0.0
    ensures planned > 0.0 ==> rate * planned == actual * 100.0
  {
    if planned > 0.0 then actual / planned * 100.0 else 0.0
  }

  /** Where something was planned, the rate reaches 100 exactly when the logged hours reach the plan. */
  lemma CompletionReachesHundred(planned: real, actual: real)
    requires planned > 0.0
    ensures CompletionRate(planned, actual) >= 100.0 <==> actual >= planned
    ensures actual >= 0.0 ==> CompletionRate(planned, actual) >= 0.0
  {
    var rate := CompletionRate(planned, actual);
    assert rate * planned == actual * 100.0;
    if rate >= 100.0 {
      assert (rate - 100.0) * planned >= 0.0;
    } else {
      assert (100.0 - rate) * planned > 0.0;
    }
  }

  /** The comparison table with its completion column, and the totals shown above it. */
  datatype Adherence = Adherence(
    rows: seq<Joined>,
    completionRate: seq<real>,
    totalPlanned: real,
    totalActual: real,
    overallCompletion: real)

  /**
   * `analyze_schedule_vs_actual`: a warning when either table is empty (the
   * schedule checked first), otherwise the joined table, its completion
   * column and the overall figures.
   */
  function AnalyzeScheduleVsActual(acts: seq<Activity>, sched: seq<ScheduleEntry>): (r: Result<Adherence, Error>)
    ensures |sched| == 0 ==> r == Failure(NoScheduledActivities)
    ensures |sched| > 0 && |acts| == 0 ==> r == Failure(NoLoggedActivities)
    ensures r.Success? <==> |sched| > 0 && |acts| > 0
    ensures r.Success? ==>
      && r.value.rows == OuterJoin(acts, sched)
      && |r.value.completionRate| == |r.value.rows|
      && (forall i :: 0 <= i < |r.value.rows| ==>
            r.value.completionRate[i] == CompletionRate(r.value.rows[i].planned, r.value.rows[i].actual))
      && r.value.totalPlanned == Sum(sched, PlannedHours)
      && r.value.totalActual == Sum(acts, Hours)
      && r.value.overallCompletion == CompletionRate(Sum(sched, PlannedHours), Sum(acts, Hours))
  {
    if |sched| == 0 then Failure(NoScheduledActivities)
    else if |acts| == 0 then Failure(NoLoggedActivities)
    else
      var rows := OuterJoin(acts, sched);
      var rates := seq(|rows|, i requires 0 <= i < |rows| => CompletionRate(rows[i].planned, rows[i].actual));
      var planned, actual := Sum(rows, JoinedPlanned), Sum(rows, JoinedActual);
      JoinConservesTotals(acts, sched);
      Success(Adherence(rows, rates, planned, actual, CompletionRate(planned, actual)))
  }
}
