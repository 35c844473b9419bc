/**
 * Time-zone handling of the loaded tables. India Standard Time is a fixed
 * offset of +05:30 with no daylight saving, so a zone is its offset in
 * minutes and localising or converting is integer arithmetic.
 *
 * A parsed timestamp is either naive (a wall clock with no zone) or aware
 * (an instant, counted in UTC minutes, together with the offset of the zone
 * it is shown in).
 */
module TimeZone {
  import opened Wrappers
  import opened Records

  const UtcOffset: int := 0
  const IstOffset: int := 330

  datatype Stamp = Naive(wall: int) | Aware(utc: int, offset: int)

  /** The wall clock a stamp shows, in minutes since 1970-01-01 00:00 of its own zone. */
  function WallClock(s: Stamp): int {
    match s
    case Naive(w) => w
    case Aware(u, o) => u + o
  }

  /** `.dt.tz_localize(zone)`: reads a naive wall clock in the zone; pandas refuses an aware value. */
  function Localize(s: Stamp, offset: int): (r: Option<Stamp>)
    ensures r.Some? <==> s.Naive?
    ensures r.Some? ==> r.value.Aware? && r.value.offset == offset && WallClock(r.value) == s.wall
  {
    match s
    case Naive(w) => Some(Aware(w - offset, offset))
    case Aware(_, _) => None
  }

  /** `.dt.tz_convert(zone)`: the same instant shown in the zone; pandas refuses a naive value. */
  function Convert(s: Stamp, offset: int): (r: Option<Stamp>)
    ensures r.Some? <==> s.Aware?
    ensures r.Some? ==> r.value.Aware? && r.value.offset == offset && r.value.utc == s.utc
  {
    match s
    case Naive(_) => None
    case Aware(u, _) => Some(Aware(u, offset))
  }

  /**
   * The `Timestamp` column as `load_data` normalises it: a naive value is
   * localised as UTC and then converted to IST, an aware one converted.
   */
  function LoadTimestamp(s: Stamp): (r: Stamp)
    ensures r.Aware? && r.offset == IstOffset
    ensures s.Naive? ==> r.utc == s.wall
    ensures s.Aware? ==> r.utc == s.utc
  {
    match s
    case Naive(_) => Convert(Localize(s, UtcOffset).value, IstOffset).value
    case Aware(_, _) => Convert(s, IstOffset).value
  }

  /**
   * Naive values localised as IST, aware values converted to IST: the
   * `Date` column of `load_data` and the second pass over both tables in the
   * plan-vs-actual analysis.
   */
  function ToIst(s: Stamp): (r: Stamp)
    ensures r.Aware? && r.offset == IstOffset
    ensures s.Naive? ==> WallClock(r) == s.wall
    ensures s.Aware? ==> r.utc == s.utc
  {
    match s
    case Naive(_) => Localize(s, IstOffset).value
    case Aware(_, _) => Convert(s, IstOffset).value
  }

  /**
   * Loading moves a naive timestamp 5 h 30 min ahead on the IST wall clock,
   * so an entry at 18:30 or later lands on the next calendar date.
   */
  lemma LoadShiftsNaive(w: int)
    ensures WallClock(LoadTimestamp(Naive(w))) == w + IstOffset
    ensures Day(WallClock(LoadTimestamp(Naive(w)))) ==
      if w % MinutesPerDay >= MinutesPerDay - IstOffset then Day(w) + 1 else Day(w)
  {
    var q, m := w / MinutesPerDay, w % MinutesPerDay;
    assert w == q * MinutesPerDay + m;
    if m >= MinutesPerDay - IstOffset {
      assert w + IstOffset == (q + 1) * MinutesPerDay + (m + IstOffset - MinutesPerDay);
    } else {
      assert w + IstOffset == q * MinutesPerDay + (m + IstOffset);
    }
  }

  /** 2025-01-01 19:00 as written by the logger is read back as 2025-01-02 00:30. */
  lemma LoadMovesEveningEntry()
    ensures Day(WallClock(LoadTimestamp(Naive(28929300)))) == Day(28929300) + 1
  {
    LoadShiftsNaive(28929300);
  }

  /** Normalising to IST twice is normalising once. */
  lemma ToIstIdempotent(s: Stamp)
    ensures ToIst(ToIst(s)) == ToIst(s)
  {
  }

  /** The second pass over a loaded column changes nothing. */
  lemma SecondPassIsNoOp(s: Stamp)
    ensures ToIst(LoadTimestamp(s)) == LoadTimestamp(s)
    ensures ToIst(ToIst(s)) == ToIst(s)
  {
  }

  /** Normalising never moves an aware value in time. */
  lemma NormalisingKeepsInstant(s: Stamp)
    requires s.Aware?
    ensures LoadTimestamp(s).utc == s.utc && ToIst(s).utc == s.utc
  {
  }

  /**
   * The logger writes the IST wall clock without a zone. Read back as IST,
   * the entry keeps its wall clock and so its calendar date.
   */
  lemma LoggedWallClockRoundTrip(w: int)
    ensures WallClock(ToIst(Naive(w))) == w
    ensures Day(WallClock(ToIst(Naive(w)))) == Day(w)
  {
  }
}
