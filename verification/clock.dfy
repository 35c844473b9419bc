/**
 * `format_time`: the timer's seconds shown as `HH:MM:SS`. The seconds are a
 * float difference of clock readings; Python's `//` and `%` on floats floor,
 * and `int()` of the floored values is exact.
 */
module Clock {
  import opened Wrappers

  /** The character of a decimal digit. */
  function DigitChar(d: int): (c: char)
    requires 0 <= d < 10
    ensures '0' <= c <= '9' && c as int - '0' as int == d
  {
    ('0' as int + d) as char
  }

  /** The decimal digits of n, most significant first, without leading zeros. */
  function Digits(n: nat): (s: string)
    ensures 1 <= |s|
    ensures n < 10 <==> |s| == 1
    ensures 10 <= n < 100 ==> |s| == 2
    ensures '0' <= s[0] <= '9'
    ensures s[0] == '0' ==> n == 0
  {
    if n < 10 then [DigitChar(n)] else Digits(n / 10) + [DigitChar(n % 10)]
  }

  /** `f"{n:02d}"`: at least two characters, zero-padded after the sign. */
  function TwoDigits(n: int): (s: string)
    ensures 2 <= |s|
    ensures 0 <= n < 100 ==> |s| == 2
    ensures n < 0 <==> s[0] == '-'
  {
    if n < 0 then "-" + Digits(-n)
    else if n < 10 then ['0', DigitChar(n)]
    else Digits(n)
  }

  /** The value of a non-empty run of decimal digits; None for anything else. */
  function ParseDigits(s: string): (r: Option<nat>)
    ensures |s| == 0 ==> r == None
  {
    if |s| == 0 then None
    else
      var last := s[|s| - 1];
      if !('0' <= last <= '9') then None
      else if |s| == 1 then Some(last as int - '0' as int)
      else match ParseDigits(s[..|s| - 1])
        case None => None
        case Some(v) => Some(v * 10 + (last as int - '0' as int))
  }

  /** Exactly the non-empty runs of decimal digits are read. */
  lemma {:induction false} ParseDigitsAcceptsDigits(s: string)
    ensures ParseDigits(s).Some? <==> 1 <= |s| && forall i :: 0 <= i < |s| ==> '0' <= s[i] <= '9'
    decreases |s|
  {
    if |s| > 1 {
      var init := s[..|s| - 1];
      ParseDigitsAcceptsDigits(init);
      assert forall i :: 0 <= i < |init| ==> init[i] == s[i];
    }
  }

  /** Whole seconds from the parsed hour, minute and second fields; minutes and seconds must be below 60. */
  function Seconds(h: Option<nat>, m: Option<nat>, sec: Option<nat>): (r: Option<int>)
    ensures r.Some? <==> h.Some? && m.Some? && sec.Some? && m.value < 60 && sec.value < 60
  {
    if h.Some? && m.Some? && sec.Some? && m.value < 60 && sec.value < 60
    then Some(h.value * 3600 + m.value * 60 + sec.value)
    else None
  }

  /**
   * Reads `H…H:MM:SS` back to whole seconds: hours of any width, minutes
   * and seconds of two digits below 60.
   */
  function ParseClock(s: string): (r: Option<int>)
    ensures r.Some? ==> r.value >= 0
  {
    if |s| < 8 || s[|s| - 6] != ':' || s[|s| - 3] != ':' then None
    else Seconds(ParseDigits(s[..|s| - 6]), ParseDigits(s[|s| - 5..|s| - 3]), ParseDigits(s[|s| - 2..]))
  }

  /** The three fields `format_time` computes: `s // 3600`, `(s % 3600) // 60`, `s % 60`, each floored. */
  datatype Fields = Fields(hours: int, minutes: int, seconds: int)

  /** Python's float `a % k`: the remainder of flooring division, never negative for k > 0. */
  function FloatMod(a: real, k: real): real
    requires k > 0.0
  {
    a - k * (a / k).Floor as real
  }

  function FieldsOf(s: real): Fields {
    var hours := (s / 3600.0).Floor;
    var minutes := (FloatMod(s, 3600.0) / 60.0).Floor;
    var seconds := FloatMod(s, 60.0).Floor;
    Fields(hours, minutes, seconds)
  }

  /** `format_time(seconds)`. */
  function FormatTime(s: real): string {
    var f := FieldsOf(s);
    TwoDigits(f.hours) + ":" + TwoDigits(f.minutes) + ":" + TwoDigits(f.seconds)
  }

  /** Dividing by a positive whole number before flooring is flooring first. */
  lemma FloorDiv(s: real, k: int)
    requires k > 0
    ensures (s / k as real).Floor == s.Floor / k
  {
    var f, q, r := s.Floor, s.Floor / k, s.Floor % k;
    var x := s / k as real;
    assert f == q * k + r && 0 <= r < k;
    assert x * k as real == s;
    assert q as real * k as real <= s by {
      assert (q * k) as real == q as real * k as real;
    }
    assert s < (q + 1) as real * k as real by {
      assert ((q + 1) * k) as real == (q + 1) as real * k as real;
    }
    assert q as real <= x;
    assert x < (q + 1) as real;
  }

  /** Taking a whole number off before flooring is taking it off after. */
  lemma FloorShift(s: real, n: int)
    ensures (s - n as real).Floor == s.Floor - n
  {
  }

  /** The remainder by 60 is the only one below 60 that leaves a multiple of 60. */
  lemma ModUnique(y: int, q: int, r: int)
    requires y == 60 * q + r && 0 <= r < 60
    ensures y % 60 == r
  {
    assert y == 60 * (y / 60) + y % 60;
    assert 60 * (q - y / 60) == y % 60 - r;
  }

  /** The seconds within the minute are the same whether or not whole hours are taken off first. */
  lemma ModOfMod(f: int)
    ensures (f % 3600) % 60 == f % 60
  {
    var q, r := f / 3600, f % 3600;
    assert f == 3600 * q + r;
    var q2, r2 := r / 60, r % 60;
    assert r == 60 * q2 + r2 && 0 <= r2 < 60;
    ModUnique(f, 60 * q + q2, r2);
  }

  /** A whole number splits into hours, minutes below 60 and seconds below 60. */
  lemma Split(n: int)
    ensures 0 <= (n % 3600) / 60 < 60
    ensures (n / 3600) * 3600 + ((n % 3600) / 60) * 60 + n % 60 == n
  {
    ModOfMod(n);
    var q, a := n / 3600, n % 3600;
    assert n == 3600 * q + a && 0 <= a < 3600;
    assert a == 60 * (a / 60) + a % 60;
  }

  /** The fields are the hours, minutes and seconds of the whole seconds. */
  lemma FieldsDecompose(s: real)
    ensures var f := FieldsOf(s);
      && f.hours == s.Floor / 3600
      && f.minutes == (s.Floor % 3600) / 60
      && f.seconds == s.Floor % 60
  {
    var h := (s / 3600.0).Floor;
    FloorDiv(s, 3600);
    FloorShift(s, 3600 * h);
    var rem := FloatMod(s, 3600.0);
    assert rem == s - (3600 * h) as real;
    FloorDiv(rem, 60);
    var m60 := (s / 60.0).Floor;
    FloorDiv(s, 60);
    FloorShift(s, 60 * m60);
    assert FloatMod(s, 60.0) == s - (60 * m60) as real;
  }

  /** The fields add back up to the whole seconds, with minutes and seconds below 60. */
  lemma FieldsAddUp(s: real)
    ensures var f := FieldsOf(s);
      && 0 <= f.minutes < 60 && 0 <= f.seconds < 60
      && f.hours * 3600 + f.minutes * 60 + f.seconds == s.Floor
  {
    FieldsDecompose(s);
    Split(s.Floor);
  }

  /** Reading back the digits of n gives n. */
  lemma {:induction false} ParseDigitsOfDigits(n: nat)
    ensures ParseDigits(Digits(n)) == Some(n)
    decreases n
  {
    if n >= 10 {
      var s := Digits(n);
      ParseDigitsOfDigits(n / 10);
      assert s[..|s| - 1] == Digits(n / 10);
    }
  }

  /** Reading back the zero-padded form of a non-negative n gives n. */
  lemma ParseTwoDigits(n: nat)
    ensures ParseDigits(TwoDigits(n)) == Some(n)
  {
    if n < 10 {
      var s := TwoDigits(n);
      assert s[..1] == ['0'];
    } else {
      ParseDigitsOfDigits(n);
    }
  }

  /** The three fields of an assembled clock string sit where `ParseClock` looks for them. */
  lemma Layout(hs: string, ms: string, ss: string)
    requires |ms| == 2 && |ss| == 2
    ensures var out := hs + ":" + ms + ":" + ss;
      && |out| == |hs| + 6
      && out[..|out| - 6] == hs
      && out[|out| - 5..|out| - 3] == ms
      && out[|out| - 2..] == ss
      && out[|out| - 6] == ':' && out[|out| - 3] == ':'
  {
    var out := hs + ":" + ms + ":" + ss;
    assert out == hs + (":" + ms + ":" + ss);
    assert out == (hs + ":") + ms + (":" + ss);
  }

  /** A clock string assembled from three fields reads back to what its fields read. */
  lemma ParseClockOfParts(hs: string, ms: string, ss: string)
    requires 2 <= |hs| && |ms| == 2 && |ss| == 2
    ensures ParseClock(hs + ":" + ms + ":" + ss) == Seconds(ParseDigits(hs), ParseDigits(ms), ParseDigits(ss))
  {
    Layout(hs, ms, ss);
  }

  /** Three non-negative fields, minutes and seconds below 60, read back from their display. */
  lemma ParseDisplayed(h: nat, m: nat, sec: nat)
    requires m < 60 && sec < 60
    ensures ParseClock(TwoDigits(h) + ":" + TwoDigits(m) + ":" + TwoDigits(sec)) == Some(h * 3600 + m * 60 + sec)
  {
    ParseTwoDigits(h);
    ParseTwoDigits(m);
    ParseTwoDigits(sec);
    ParseClockOfParts(TwoDigits(h), TwoDigits(m), TwoDigits(sec));
  }

  /**
   * For a non-negative reading, the display reads back to the whole seconds
   * it stands for: `format_time` loses only the fraction of a second.
   */
  lemma FormatTimeRoundTrip(s: real)
    requires s >= 0.0
    ensures ParseClock(FormatTime(s)) == Some(s.Floor)
  {
    var f := FieldsOf(s);
    FieldsDecompose(s);
    FieldsAddUp(s);
    assert f.hours >= 0 by {
      assert s.Floor >= 0;
    }
    assert FormatTime(s) == TwoDigits(f.hours) + ":" + TwoDigits(f.minutes) + ":" + TwoDigits(f.seconds);
    ParseDisplayed(f.hours, f.minutes, f.seconds);
  }

  /** A negative reading shows a minus sign in front of the hours, a non-negative one does not. */
  lemma SignShown(s: real)
    ensures FormatTime(s)[0] == '-' <==> s < 0.0
  {
    FieldsDecompose(s);
  }

  /** 3725.5 s (one hour, two minutes, five and a half seconds) shows as 01:02:05. */
  lemma FormatExample()
    ensures FormatTime(3725.5) == "01:02:05"
  {
    FieldsDecompose(3725.5);
    assert (3725.5).Floor == 3725;
    assert FieldsOf(3725.5) == Fields(1, 2, 5);
  }
}
