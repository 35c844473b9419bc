/**
 * The activity timer of the logging tab, a start/stop button over session
 * state, in its two variants, and the rule that turns it into the logged
 * duration. Clock readings (`time.time()`) are seconds, passed in as `now`.
 *
 * Each page run sees at most one button press. The accumulating variant
 * adds every finished run to the elapsed time; the overwrite variant
 * replaces the elapsed time with the length of the latest run.
 */
module Timer {
  import opened Wrappers
  import opened Records

  const SecondsPerHour: real := 3600.0

  /** The session state: stopped with `elapsed` seconds, or running since `start` with `elapsed` from before. */
  datatype Timer = Stopped(elapsed: real) | Running(start: real, elapsed: real)

  /** The state a new session starts in, and the one logging leaves behind. */
  const Idle: Timer := Stopped(0.0)

  /** One page run: whether the timer button was pressed, and the clock reading. */
  datatype Tick = Tick(pressed: bool, now: real)

  /** The clock never reads earlier than a running timer's start. */
  ghost predicate ClockedAfter(t: Timer, now: real) {
    t.Running? ==> t.start <= now
  }

  /** The readings of the runs never go back, starting from `from`. */
  ghost predicate Monotone(from: real, ticks: seq<Tick>) {
    && (forall i :: 0 <= i < |ticks| ==> from <= ticks[i].now)
    && (forall i, j :: 0 <= i < j < |ticks| ==> ticks[i].now <= ticks[j].now)
  }

  // The accumulating timer.

  /** "Start Timer" records the start; "Stop Timer" adds the run to the elapsed time and forgets the start. */
  function Press(t: Timer, now: real): (r: Timer)
    ensures r.Running? <==> t.Stopped?
    ensures t.Stopped? ==> r.start == now && r.elapsed == t.elapsed
    ensures t.Running? ==> r.elapsed == t.elapsed + (now - t.start)
  {
    match t
    case Stopped(e) => Running(now, e)
    case Running(s, e) => Stopped(e + (now - s))
  }

  /** The seconds on display: the elapsed time, plus the current run while running. */
  function Shown(t: Timer, now: real): real {
    match t
    case Stopped(e) => e
    case Running(s, e) => e + (now - s)
  }

  /** One run of `create_timer_section`: the press, if any, then the hours it returns. */
  function Step(t: Timer, tick: Tick): (r: (Timer, real))
    ensures r.1 == Shown(r.0, tick.now) / SecondsPerHour
    ensures tick.pressed ==> r.0 == Press(t, tick.now)
    ensures !tick.pressed ==> r.0 == t
  {
    var t' := if tick.pressed then Press(t, tick.now) else t;
    (t', Shown(t', tick.now) / SecondsPerHour)
  }

  /** The state after a sequence of runs. */
  function Run(t: Timer, ticks: seq<Tick>): Timer
    decreases |ticks|
  {
    if |ticks| == 0 then t else Run(Step(t, ticks[0]).0, ticks[1..])
  }

  /**
   * The seconds the timer spent running from `from` to `now` across the
   * runs, measured on the clock alone: the reference the display is held to.
   */
  ghost function RunningTime(t: Timer, from: real, ticks: seq<Tick>, now: real): real
    decreases |ticks|
  {
    if |ticks| == 0 then (if t.Running? then now - from else 0.0)
    else
      (if t.Running? then ticks[0].now - from else 0.0)
      + RunningTime(Step(t, ticks[0]).0, ticks[0].now, ticks[1..], now)
  }

  /** A press never changes what is on display at that instant. */
  lemma PressKeepsShown(t: Timer, now: real)
    ensures Shown(Press(t, now), now) == Shown(t, now)
  {
  }

  /**
   * Nothing is lost across start/stop cycles: the display after the runs is
   * the display before them plus exactly the time spent running.
   */
  lemma {:induction false} ShownCountsRunningTime(t: Timer, from: real, ticks: seq<Tick>, now: real)
    ensures Shown(Run(t, ticks), now) == Shown(t, from) + RunningTime(t, from, ticks, now)
    decreases |ticks|
  {
    if |ticks| > 0 {
      var t' := Step(t, ticks[0]).0;
      ShownCountsRunningTime(t', ticks[0].now, ticks[1..], now);
      PressKeepsShown(t, ticks[0].now);
    }
  }

  /** With a clock that never goes back, the elapsed time never decreases. */
  lemma {:induction false} ElapsedNeverDecreases(t: Timer, from: real, ticks: seq<Tick>)
    requires ClockedAfter(t, from)
    requires Monotone(from, ticks)
    ensures Run(t, ticks).elapsed >= t.elapsed
    decreases |ticks|
  {
    if |ticks| > 0 {
      var t' := Step(t, ticks[0]).0;
      assert Monotone(ticks[0].now, ticks[1..]) by {
        forall i | 0 <= i < |ticks[1..]| ensures ticks[0].now <= ticks[1..][i].now {
          assert ticks[1..][i] == ticks[i + 1];
        }
      }
      ElapsedNeverDecreases(t', ticks[0].now, ticks[1..]);
    }
  }

  /** Under a clock that never goes back, no run adds negative time. */
  lemma {:induction false} RunningTimeNonNegative(t: Timer, from: real, ticks: seq<Tick>, now: real)
    requires Monotone(from, ticks + [Tick(false, now)])
    ensures RunningTime(t, from, ticks, now) >= 0.0
    decreases |ticks|
  {
    var all := ticks + [Tick(false, now)];
    assert all[|all| - 1].now == now;
    if |ticks| > 0 {
      var rest := ticks[1..];
      assert rest + [Tick(false, now)] == all[1..];
      assert Monotone(ticks[0].now, rest + [Tick(false, now)]) by {
        forall i | 0 <= i < |all[1..]| ensures ticks[0].now <= all[1..][i].now {
          assert all[1..][i] == all[i + 1] && all[0] == ticks[0];
        }
      }
      assert from <= all[0].now;
      RunningTimeNonNegative(Step(t, ticks[0]).0, ticks[0].now, rest, now);
    }
  }

  /** Under a clock that never goes back, the display never goes back. */
  lemma ShownNeverDecreases(t: Timer, from: real, ticks: seq<Tick>, now: real)
    requires Monotone(from, ticks + [Tick(false, now)])
    ensures Shown(Run(t, ticks), now) >= Shown(t, from)
  {
    ShownCountsRunningTime(t, from, ticks, now);
    RunningTimeNonNegative(t, from, ticks, now);
  }

  // The overwrite timer.

  /**
   * "Start Timer" records the start and keeps the elapsed time; "Stop
   * Timer" sets the elapsed time to the latest run alone, unless the start
   * reads 0 (false in Python), and forgets nothing else.
   */
  function OverwritePress(t: Timer, now: real): (r: Timer)
    ensures r.Running? <==> t.Stopped?
    ensures t.Stopped? ==> r.start == now && r.elapsed == t.elapsed
    ensures t.Running? && t.start != 0.0 ==> r.elapsed == now - t.start
    ensures t.Running? && t.start == 0.0 ==> r.elapsed == t.elapsed
  {
    match t
    case Stopped(e) => Running(now, e)
    case Running(s, e) => Stopped(if s != 0.0 then now - s else e)
  }

  /** Rendering while running stores the current run's length as the elapsed time. */
  function OverwriteRender(t: Timer, now: real): (r: Timer)
    ensures r.Running? <==> t.Running?
    ensures t.Running? ==> r.start == t.start && r.elapsed == now - t.start
    ensures t.Stopped? ==> r == t
  {
    match t
    case Stopped(_) => t
    case Running(s, _) => Running(s, now - s)
  }

  /**
   * One run of the overwrite `create_timer_section`: the press, if any (the
   * page then reruns at once, modelled at the same reading), then the
   * render, returning the stored elapsed time in hours.
   */
  function OverwriteStep(t: Timer, tick: Tick): (r: (Timer, real))
    ensures r.1 == r.0.elapsed / SecondsPerHour
    ensures r.0.Running? ==> r.0.elapsed == tick.now - r.0.start
    ensures !tick.pressed && t.Stopped? ==> r.0 == t
    ensures !tick.pressed && t.Running? ==> r.0 == Running(t.start, tick.now - t.start)
    ensures tick.pressed && t.Stopped? ==> r.0 == Running(tick.now, 0.0)
    ensures tick.pressed && t.Running? ==>
      r.0 == Stopped(if t.start != 0.0 then tick.now - t.start else t.elapsed)
  {
    var t' := OverwriteRender(if tick.pressed then OverwritePress(t, tick.now) else t, tick.now);
    (t', t'.elapsed / SecondsPerHour)
  }

  function OverwriteRun(t: Timer, ticks: seq<Tick>): Timer
    decreases |ticks|
  {
    if |ticks| == 0 then t else OverwriteRun(OverwriteStep(t, ticks[0]).0, ticks[1..])
  }

  /** Stopping keeps nothing of the runs before the latest one. */
  lemma OverwriteStopForgets(s: real, e1: real, e2: real, now: real)
    requires s != 0.0
    ensures OverwritePress(Running(s, e1), now) == OverwritePress(Running(s, e2), now)
    ensures OverwritePress(Running(s, e1), now).elapsed == now - s
  {
  }

  /** Start at 100 s, stop at 160 s, start at 200 s, stop at 230 s. */
  const TwoRuns: seq<Tick> := [Tick(true, 100.0), Tick(true, 160.0), Tick(true, 200.0), Tick(true, 230.0)]

  /**
   * Two runs of 60 s and 30 s: the accumulating timer shows the 90 s the
   * timer ran, the overwrite timer only the last 30 s.
   */
  lemma OverwriteLosesEarlierRuns()
    ensures RunningTime(Idle, 0.0, TwoRuns, 230.0) == 90.0
    ensures Run(Idle, TwoRuns).elapsed == 90.0
    ensures OverwriteRun(Idle, TwoRuns).elapsed == 30.0
  {
    var t1 := Step(Idle, TwoRuns[0]).0;
    var t2 := Step(t1, TwoRuns[1]).0;
    var t3 := Step(t2, TwoRuns[2]).0;
    assert TwoRuns[1..][1..][1..][1..] == [];
    assert Run(Idle, TwoRuns) == Run(t1, TwoRuns[1..]);
  }

  // Logging.

  /**
   * "Log Activity": the duration is the timer's hours when they are
   * positive, otherwise the manual duration, which is only on the page while
   * the timer is stopped; with the timer running and nothing on it the
   * manual value was never read and logging fails. A logged entry is
   * stamped with the IST wall clock and leaves the timer idle.
   */
  function LogActivity(
    t: Timer, now: real, nowIst: int, priority: string, description: string, manual: real, remarks: string
  ): (r: Result<(Activity, Timer), Error>)
    ensures r.Success? <==> Shown(t, now) > 0.0 || t.Stopped?
    ensures r.Failure? ==> r.error == DurationUnset
    ensures r.Success? ==>
      && r.value.0 == Activity(nowIst, priority, description, r.value.0.duration, remarks)
      && (Shown(t, now) > 0.0 ==> r.value.0.duration == Shown(t, now) / SecondsPerHour)
      && (Shown(t, now) <= 0.0 ==> r.value.0.duration == manual)
      && r.value.1 == Idle
  {
    var hours := Shown(t, now) / SecondsPerHour;
    if hours > 0.0 then Success((Activity(nowIst, priority, description, hours, remarks), Idle))
    else if t.Stopped? then Success((Activity(nowIst, priority, description, manual, remarks), Idle))
    else Failure(DurationUnset)
  }

  /**
   * From a fresh session, the hours logged from the timer are exactly the
   * time it ran, whatever the start/stop presses in between.
   */
  lemma LoggedHoursAreRunningTime(
    from: real, ticks: seq<Tick>, now: real, nowIst: int, priority: string, description: string, manual: real, remarks: string)
    requires RunningTime(Idle, from, ticks, now) > 0.0
    ensures var r := LogActivity(Run(Idle, ticks), now, nowIst, priority, description, manual, remarks);
      r.Success? && r.value.0.duration == RunningTime(Idle, from, ticks, now) / SecondsPerHour
  {
    ShownCountsRunningTime(Idle, from, ticks, now);
  }

  /** After a successful log the timer is back to a fresh session's: stopped, showing nothing, at any reading. */
  lemma LogResetsTimer(
    t: Timer, now: real, nowIst: int, priority: string, description: string, manual: real, remarks: string, later: real)
    requires LogActivity(t, now, nowIst, priority, description, manual, remarks).Success?
    ensures var t' := LogActivity(t, now, nowIst, priority, description, manual, remarks).value.1;
      t'.Stopped? && Shown(t', later) == 0.0
  {
  }
}
