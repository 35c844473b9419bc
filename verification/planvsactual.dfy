/**
 * `create_plan_vs_actual_analysis`: the required-column checks, the time
 * window applied to the log and to the schedule separately, the outer join
 * with its difference column, and the per-priority totals with their
 * percentage deviation.
 */
module PlanVsActual {
  import opened Wrappers
  import opened Sums
  import opened Records
  import opened Filters
  import opened Reconcile

  /** A loaded sheet: the column names of its header and its rows. */
  datatype Table<T> = Table(columns: set<string>, rows: seq<T>)

  /**
   * The columns of `pd.DataFrame(sheet.get_all_records())`: the records
   * carry the header's names, so a sheet without records loads as a frame
   * with no columns at all, whatever its header.
   */
  function FrameColumns<T>(t: Table<T>): (cs: set<string>)
    ensures |t.rows| == 0 ==> cs == {}
    ensures |t.rows| > 0 ==> cs == t.columns
  {
    if |t.rows| == 0 then {} else t.columns
  }

  /** One row of the per-priority table: `Total_Planned_Hours`, `Total_Actual_Hours`, `Total_Difference`, `Percentage_Deviation`. */
  datatype PriorityKpi = PriorityKpi(
    totalPlanned: real,
    totalActual: real,
    totalDifference: real,
    percentageDeviation: real)

  /** The joined table with its `Difference` column, and the per-priority table. */
  datatype Analysis = Analysis(
    comparison: seq<Joined>,
    difference: seq<real>,
    kpis: map<string, PriorityKpi>)

  /** `Duration_actual - Planned_Duration`. */
  function JoinedDifference(j: Joined): real {
    j.actual - j.planned
  }

  /** `Total_Difference / Total_Planned_Hours * 100`, or 0 when nothing was planned. */
  function PercentageDeviation(planned: real, difference: real): (pct: real)
    ensures planned == 0.0 ==> pct == 0.0
    ensures planned != 0.0 ==> pct * planned == difference * 100.0
  {
    if planned != 0.0 then difference / planned * 100.0 else 0.0
  }

  /** A priority's differences add up to its logged total minus its planned total. */
  lemma {:induction false} DifferenceAddsUp(rows: seq<Joined>, p: string)
    ensures SumAt(rows, JoinedPriority, JoinedDifference, p) ==
      SumAt(rows, JoinedPriority, JoinedActual, p) - SumAt(rows, JoinedPriority, JoinedPlanned, p)
    decreases |rows|
  {
    if |rows| > 0 {
      DifferenceAddsUp(rows[1..], p);
    }
  }

  /** The per-priority row of `groupby('Priority').agg(...)` for p. */
  function KpiFor(rows: seq<Joined>, p: string): (k: PriorityKpi)
    ensures k.totalPlanned == SumAt(rows, JoinedPriority, JoinedPlanned, p)
    ensures k.totalActual == SumAt(rows, JoinedPriority, JoinedActual, p)
    ensures k.totalDifference == k.totalActual - k.totalPlanned
    ensures k.percentageDeviation == PercentageDeviation(k.totalPlanned, k.totalDifference)
  {
    var planned := SumAt(rows, JoinedPriority, JoinedPlanned, p);
    var actual := SumAt(rows, JoinedPriority, JoinedActual, p);
    var difference := SumAt(rows, JoinedPriority, JoinedDifference, p);
    DifferenceAddsUp(rows, p);
    PriorityKpi(planned, actual, difference, PercentageDeviation(planned, difference))
  }

  /** The per-priority table: one row for every priority of the joined table. */
  function PriorityKpis(rows: seq<Joined>): (m: map<string, PriorityKpi>)
    ensures forall p :: p in m <==> exists j :: j in rows && j.key.priority == p
    ensures forall p :: p in m ==> m[p] == KpiFor(rows, p)
  {
    map p | p in (set j | j in rows :: j.key.priority) :: KpiFor(rows, p)
  }

  /** The keys among ks with priority p, in the same order. */
  function KeysWithPriority(ks: seq<Key>, p: string): (r: seq<Key>)
    ensures forall k :: k in r <==> k in ks && k.priority == p
    ensures Distinct(ks) ==> Distinct(r)
  {
    if |ks| == 0 then []
    else
      var rest := KeysWithPriority(ks[1..], p);
      assert forall k :: k in ks <==> k == ks[0] || k in ks[1..] by {
        assert ks == [ks[0]] + ks[1..];
      }
      if ks[0].priority == p then
        assert Distinct(ks) ==> ks[0] !in ks[1..] by {
          if Distinct(ks) {
            forall j | 0 <= j < |ks[1..]| ensures ks[1..][j] != ks[0] {
              assert ks[1..][j] == ks[j + 1];
            }
          }
        }
        assert Distinct(ks) ==> Distinct(ks[1..]) by {
          if Distinct(ks) {
            forall i, j | 0 <= i < j < |ks[1..]| ensures ks[1..][i] != ks[1..][j] {
              assert ks[1..][i] == ks[i + 1] && ks[1..][j] == ks[j + 1];
            }
          }
        }
        [ks[0]] + rest
      else
        assert Distinct(ks) ==> Distinct(ks[1..]) by {
          if Distinct(ks) {
            forall i, j | 0 <= i < j < |ks[1..]| ensures ks[1..][i] != ks[1..][j] {
              assert ks[1..][i] == ks[i + 1] && ks[1..][j] == ks[j + 1];
            }
          }
        }
        rest
  }

  /** A priority's share of the joined rows is the group totals over that priority's keys. */
  lemma {:induction false} RowsAtPriority(acts: seq<Activity>, sched: seq<ScheduleEntry>, ks: seq<Key>, p: string)
    ensures SumAt(RowsFor(acts, sched, ks), JoinedPriority, JoinedPlanned, p) ==
      SumOver(sched, ScheduleKey, PlannedHours, KeysWithPriority(ks, p))
    ensures SumAt(RowsFor(acts, sched, ks), JoinedPriority, JoinedActual, p) ==
      SumOver(acts, ActivityKey, Hours, KeysWithPriority(ks, p))
    decreases |ks|
  {
    if |ks| > 0 {
      RowsAtPriority(acts, sched, ks[1..], p);
      assert RowsFor(acts, sched, ks)[1..] == RowsFor(acts, sched, ks[1..]);
    }
  }

  /**
   * Conservation per priority: the joined rows of priority p carry exactly
   * the planned hours of p's schedule entries and the logged hours of p's
   * log rows.
   */
  lemma PriorityTotalsConserved(acts: seq<Activity>, sched: seq<ScheduleEntry>, p: string)
    ensures SumAt(OuterJoin(acts, sched), JoinedPriority, JoinedPlanned, p) == SumAt(sched, EntryPriority, PlannedHours, p)
    ensures SumAt(OuterJoin(acts, sched), JoinedPriority, JoinedActual, p) == SumAt(acts, ActivityPriority, Hours, p)
  {
    var ks := JoinKeys(acts, sched);
    var kp := KeysWithPriority(ks, p);
    var own := set k | k in kp;
    JoinKeysDistinct(acts, sched);
    RowsAtPriority(acts, sched, ks, p);
    SumOverIsSumIn(sched, ScheduleKey, PlannedHours, kp);
    SumOverIsSumIn(acts, ActivityKey, Hours, kp);
    assert forall e :: e in sched ==> ScheduleKey(e) in ks;
    assert forall a :: a in acts ==> ActivityKey(a) in ks;
    SumInIsSumAt(sched, ScheduleKey, PlannedHours, own, EntryPriority, p);
    SumInIsSumAt(acts, ActivityKey, Hours, own, ActivityPriority, p);
  }

  /** Every key of either table has its row in the join. */
  lemma KeyJoined(acts: seq<Activity>, sched: seq<ScheduleEntry>, k: Key)
    requires Logged(acts, k) || Scheduled(sched, k)
    ensures exists j :: j in OuterJoin(acts, sched) && j.key == k
  {
    var rows := OuterJoin(acts, sched);
    var i :| 0 <= i < |rows| && rows[i].key == k;
    assert rows[i] in rows;
  }

  /** Every row of the join has its key in one of the tables. */
  lemma JoinedKeyPresent(acts: seq<Activity>, sched: seq<ScheduleEntry>, j: Joined)
    requires j in OuterJoin(acts, sched)
    ensures Logged(acts, j.key) || Scheduled(sched, j.key)
  {
    var rows := OuterJoin(acts, sched);
    var i :| 0 <= i < |rows| && rows[i] == j;
  }

  /** The priorities of the joined table are those of the two windowed tables. */
  lemma JoinPriorities(acts: seq<Activity>, sched: seq<ScheduleEntry>, p: string)
    ensures (exists j :: j in OuterJoin(acts, sched) && j.key.priority == p) <==>
      (exists a :: a in acts && a.priority == p) || (exists e :: e in sched && e.priority == p)
  {
    if exists j :: j in OuterJoin(acts, sched) && j.key.priority == p {
      var j :| j in OuterJoin(acts, sched) && j.key.priority == p;
      JoinedKeyPresent(acts, sched, j);
    }
    if exists a :: a in acts && a.priority == p {
      var a :| a in acts && a.priority == p;
      KeyJoined(acts, sched, ActivityKey(a));
    }
    if exists e :: e in sched && e.priority == p {
      var e :| e in sched && e.priority == p;
      KeyJoined(acts, sched, ScheduleKey(e));
    }
  }

  /** What the per-priority table of the joined windowed tables holds, stated against the windowed tables. */
  ghost predicate SummarisesPriorities(acts: seq<Activity>, sched: seq<ScheduleEntry>, m: map<string, PriorityKpi>) {
    && (forall p :: p in m <==> (exists a :: a in acts && a.priority == p) || (exists e :: e in sched && e.priority == p))
    && (forall p :: p in m ==>
          && m[p].totalPlanned == SumAt(sched, EntryPriority, PlannedHours, p)
          && m[p].totalActual == SumAt(acts, ActivityPriority, Hours, p)
          && m[p].totalDifference == m[p].totalActual - m[p].totalPlanned
          && m[p].percentageDeviation == PercentageDeviation(m[p].totalPlanned, m[p].totalDifference))
  }

  lemma PriorityKpisSummarise(acts: seq<Activity>, sched: seq<ScheduleEntry>)
    ensures SummarisesPriorities(acts, sched, PriorityKpis(OuterJoin(acts, sched)))
  {
    var m := PriorityKpis(OuterJoin(acts, sched));
    forall p ensures p in m <==> (exists a :: a in acts && a.priority == p) || (exists e :: e in sched && e.priority == p) {
      JoinPriorities(acts, sched, p);
    }
    forall p | p in m
      ensures m[p].totalPlanned == SumAt(sched, EntryPriority, PlannedHours, p)
      ensures m[p].totalActual == SumAt(acts, ActivityPriority, Hours, p)
    {
      PriorityTotalsConserved(acts, sched, p);
    }
  }

  /**
   * `create_plan_vs_actual_analysis`: an error when the log has no
   * `Duration` column (checked first) or the schedule no `Planned_Duration`
   * column, which includes a sheet without records; otherwise both tables
   * cut to the window on their own, joined, and summarised per priority.
   */
  function CreatePlanVsActual(logged: Table<Activity>, schedule: Table<ScheduleEntry>, w: Window, now: int): (r: Result<Analysis, Error>)
    ensures "Duration" !in FrameColumns(logged) ==> r == Failure(MissingColumn("Duration"))
    ensures |logged.rows| == 0 ==> r == Failure(MissingColumn("Duration"))
    ensures "Duration" in FrameColumns(logged) && "Planned_Duration" !in FrameColumns(schedule) ==>
      r == Failure(MissingColumn("Planned_Duration"))
    ensures r.Success? <==>
      && |logged.rows| > 0 && "Duration" in logged.columns
      && |schedule.rows| > 0 && "Planned_Duration" in schedule.columns
    ensures r.Success? ==>
      var acts, sched := LogWindow(logged.rows, w, now), ScheduleWindow(schedule.rows, w, now);
      && r.value.comparison == OuterJoin(acts, sched)
      && |r.value.difference| == |r.value.comparison|
      && (forall i :: 0 <= i < |r.value.comparison| ==>
            r.value.difference[i] == r.value.comparison[i].actual - r.value.comparison[i].planned)
      && SummarisesPriorities(acts, sched, r.value.kpis)
  {
    if "Duration" !in FrameColumns(logged) then Failure(MissingColumn("Duration"))
    else if "Planned_Duration" !in FrameColumns(schedule) then Failure(MissingColumn("Planned_Duration"))
    else
      var acts, sched := LogWindow(logged.rows, w, now), ScheduleWindow(schedule.rows, w, now);
      var rows := OuterJoin(acts, sched);
      var difference := seq(|rows|, i requires 0 <= i < |rows| => JoinedDifference(rows[i]));
      PriorityKpisSummarise(acts, sched);
      Success(Analysis(rows, difference, PriorityKpis(rows)))
  }
}
