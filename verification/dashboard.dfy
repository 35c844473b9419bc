/**
 * The top of `create_dashboard`: the loaded log cut to the selected period
 * and handed to `calculate_kpis`. `calculate_kpis` cannot describe an empty
 * table (`idxmax` of an empty group fails), so what decides whether the page
 * renders is where, if anywhere, emptiness is checked.
 */
module Dashboard {
  import opened Wrappers
  import opened Records
  import opened Kpis
  import opened Filters

  /** What the page ends in: the "No data" warning, an exception, or the KPI section. */
  datatype Outcome = NoData | Crash | Shown(kpis: Kpis)

  /** The KPI section for the rows, or the exception `calculate_kpis` raises on none. */
  function KpisOrCrash(rows: seq<Activity>): (o: Outcome)
    ensures o.Crash? <==> |rows| == 0
    ensures o.Shown? ==> Describes(rows, o.kpis)
    ensures !o.NoData?
  {
    match CalculateKpis(rows)
    case Failure(_) => Crash
    case Success(k) => Shown(k)
  }

  /**
   * The dashboard of the accumulating-timer variant as written: the warning
   * when the whole log is empty, checked before the period filter, and the
   * KPIs of whatever the filter leaves.
   */
  function CreateDashboard(rows: seq<Activity>, w: Window, now: int): (o: Outcome)
    ensures o.NoData? <==> |rows| == 0
    ensures o.Crash? <==> |rows| > 0 && |DashboardWindow(rows, w, now)| == 0
    ensures o.Shown? ==> Describes(DashboardWindow(rows, w, now), o.kpis)
  {
    if |rows| == 0 then NoData else KpisOrCrash(DashboardWindow(rows, w, now))
  }

  /** The dashboard of the latest variant: no emptiness check at all. */
  function CreateDashboardUnchecked(rows: seq<Activity>, w: Window, now: int): (o: Outcome)
    ensures !o.NoData?
    ensures o.Crash? <==> |DashboardWindow(rows, w, now)| == 0
    ensures o.Shown? ==> Describes(DashboardWindow(rows, w, now), o.kpis)
  {
    KpisOrCrash(DashboardWindow(rows, w, now))
  }

  /** One hour logged at midnight of 1970-01-01, the only row of the log. */
  const OldEntry: Activity := Activity(0, "Work", "Report", 1.0, "")

  /**
   * The log is not empty, so the warning is skipped, but "Last 7 days" at a
   * reading eight days later leaves nothing, and the KPIs raise.
   */
  lemma OldEntryCrashes()
    ensures CreateDashboard([OldEntry], LastDays(7), 8 * MinutesPerDay) == Crash
    ensures CreateDashboardUnchecked([OldEntry], LastDays(7), 8 * MinutesPerDay) == Crash
  {
    var window := DashboardWindow([OldEntry], LastDays(7), 8 * MinutesPerDay);
    assert OldEntry !in window;
  }

  /** The dashboard with the emptiness check moved after the period filter. */
  function CreateDashboardChecked(rows: seq<Activity>, w: Window, now: int): (o: Outcome)
    ensures !o.Crash?
    ensures o.NoData? <==> |DashboardWindow(rows, w, now)| == 0
    ensures o.Shown? ==> Describes(DashboardWindow(rows, w, now), o.kpis)
  {
    var window := DashboardWindow(rows, w, now);
    if |window| == 0 then NoData else KpisOrCrash(window)
  }

  /** Wherever the page as written renders, the checked page renders the same thing. */
  lemma CheckedAgreesWhenShown(rows: seq<Activity>, w: Window, now: int)
    ensures !CreateDashboard(rows, w, now).Crash? ==> CreateDashboardChecked(rows, w, now) == CreateDashboard(rows, w, now)
    ensures !CreateDashboardUnchecked(rows, w, now).Crash? ==>
      CreateDashboardChecked(rows, w, now) == CreateDashboardUnchecked(rows, w, now)
  {
    var window := DashboardWindow(rows, w, now);
    if |rows| == 0 {
      assert multiset(window) <= multiset(rows);
    }
  }

  /** Over "All time" the check before the filter is the check after it: the two pages agree. */
  lemma AllTimeNeverCrashes(rows: seq<Activity>, now: int)
    ensures !CreateDashboard(rows, AllTime, now).Crash?
    ensures CreateDashboard(rows, AllTime, now) == CreateDashboardChecked(rows, AllTime, now)
  {
  }
}
