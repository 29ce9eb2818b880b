// chrono's `NaiveTime` as the subtitle pipeline uses it: a time of day with
// nanosecond resolution, read with `parse_from_str` under the two formats
// `%H:%M:%S%.f` (the ASS/SSA parser) and `%H:%M:%S,%3f` (the SRT parser),
// shifted by a signed `Duration` that wraps around midnight, and written as
// `H:MM:SS.CC` by the emitter.
module Times {
  import opened Wrappers
  import opened Decimal

  const NanosPerSecond: nat := 1_000_000_000
  const NanosPerMinute: nat := 60_000_000_000
  const NanosPerHour: nat := 3_600_000_000_000
  const NanosPerDay: nat := 86_400_000_000_000

  /** Nanoseconds since midnight; leap seconds are not represented. */
  type Time = t: nat | t < NanosPerDay

  /** chrono's `Duration`, in nanoseconds. */
  type Duration = int

  function Hour(t: Time): (h: nat)
    ensures h < 24
  {
    t / NanosPerHour
  }

  function Minute(t: Time): (m: nat)
    ensures m < 60
  {
    t % NanosPerHour / NanosPerMinute
  }

  function Second(t: Time): (s: nat)
    ensures s < 60
  {
    t % NanosPerMinute / NanosPerSecond
  }

  /** chrono's `Timelike::nanosecond`. */
  function Nanosecond(t: Time): (ns: nat)
    ensures ns < NanosPerSecond
  {
    t % NanosPerSecond
  }

  function FromParts(h: nat, m: nat, s: nat, ns: nat): (t: Time)
    requires h < 24 && m < 60 && s < 60 && ns < NanosPerSecond
  {
    h * NanosPerHour + m * NanosPerMinute + s * NanosPerSecond + ns
  }

  /** Taking a time apart and putting it together again are inverse. */
  lemma {:induction false} PartsRoundTrip(h: nat, m: nat, s: nat, ns: nat)
    requires h < 24 && m < 60 && s < 60 && ns < NanosPerSecond
    ensures var t := FromParts(h, m, s, ns);
      Hour(t) == h && Minute(t) == m && Second(t) == s && Nanosecond(t) == ns
  {
    var t := FromParts(h, m, s, ns);
    var belowHour := m * NanosPerMinute + s * NanosPerSecond + ns;
    var belowMinute := s * NanosPerSecond + ns;
    assert t == h * NanosPerHour + belowHour && belowHour < NanosPerHour;
    assert t % NanosPerHour == belowHour;
    assert belowHour == m * NanosPerMinute + belowMinute && belowMinute < NanosPerMinute;
    assert t == (h * 60 + m) * NanosPerMinute + belowMinute;
    assert t % NanosPerMinute == belowMinute;
    assert t == ((h * 60 + m) * 60 + s) * NanosPerSecond + ns;
  }

  /** Every time is the sum of its parts. */
  lemma {:induction false} TimeFromItsParts(t: Time)
    ensures t == FromParts(Hour(t), Minute(t), Second(t), Nanosecond(t))
  {
    var h, m, s, ns := Hour(t), Minute(t), Second(t), Nanosecond(t);
    assert t == h * NanosPerHour + t % NanosPerHour;
    assert t % NanosPerHour == m * NanosPerMinute + t % NanosPerHour % NanosPerMinute;
    assert t % NanosPerHour % NanosPerMinute == t % NanosPerMinute by {
      assert t == (h * 60) * NanosPerMinute + t % NanosPerHour;
    }
    assert t % NanosPerMinute == s * NanosPerSecond + t % NanosPerMinute % NanosPerSecond;
    assert t % NanosPerMinute % NanosPerSecond == ns by {
      assert t == (h * 60 + m) * 60 * NanosPerSecond + t % NanosPerMinute;
    }
  }

  /** `NaiveTime - NaiveTime` (`signed_duration_since`): the signed difference. */
  function Since(later: Time, earlier: Time): Duration {
    later - earlier
  }

  /** `NaiveTime + Duration`: the sum, wrapped around midnight. */
  function AddDuration(t: Time, d: Duration): (r: Time)
    ensures (r - (t + d)) % NanosPerDay == 0
  {
    (t + d) % NanosPerDay
  }

  /** Adding the difference of two times to the earlier one gives the later one. */
  lemma AddSince(a: Time, b: Time)
    ensures AddDuration(b, Since(a, b)) == a
  {
  }

  /** Shifting two times by the same duration keeps their distance, modulo a day. */
  lemma {:induction false} AddKeepsDistance(s: Time, e: Time, d: Duration)
    ensures (AddDuration(e, d) - AddDuration(s, d) - (e - s)) % NanosPerDay == 0
  {
    var k1 := (e + d) / NanosPerDay;
    var k2 := (s + d) / NanosPerDay;
    assert AddDuration(e, d) == e + d - k1 * NanosPerDay;
    assert AddDuration(s, d) == s + d - k2 * NanosPerDay;
    assert AddDuration(e, d) - AddDuration(s, d) - (e - s) == (k2 - k1) * NanosPerDay;
  }

  /** A number of at most `max` ASCII digits and what follows it (chrono's `scan::number`). */
  datatype Scanned = Scanned(value: nat, rest: string)

  function ScanNumber(s: string, max: nat): (r: Option<Scanned>)
    ensures r.Some? ==> |r.value.rest| < |s|
  {
    var n := LeadingDigits(s, max);
    if n == 0 then None else Some(Scanned(DigitsValue(s[..n]), s[n..]))
  }

  function ExpectChar(s: string, c: char): Option<string> {
    if s != [] && s[0] == c then Some(s[1..]) else None
  }

  /** chrono's `%.f` when parsing: nothing, or a `.` and at least one digit; the first
      nine digits give the nanoseconds and any further digits are skipped. */
  function ScanFraction(s: string): (r: Option<Scanned>)
    ensures r.Some? ==> r.value.value < NanosPerSecond
  {
    if s == [] || s[0] != '.' then Some(Scanned(0, s))
    else
      var digits := s[1..];
      var n := LeadingDigits(digits, 9);
      if n == 0 then None
      else Some(Scanned(FractionNanos(digits[..n]), SkipDigits(digits[n..])))
  }

  /** Up to nine digits after the decimal point, as nanoseconds. */
  function FractionNanos(d: string): (ns: nat)
    requires AllDigits(d) && |d| <= 9
    ensures ns < NanosPerSecond
  {
    DigitsBound(d);
    DigitsValue(d) * Pow10(9 - |d|)
  }

  function Pow10(k: nat): (p: nat)
    ensures p >= 1
  {
    if k == 0 then 1 else 10 * Pow10(k - 1)
  }

  lemma {:induction false} DigitsBound(s: string)
    requires AllDigits(s)
    ensures DigitsValue(s) < Pow10(|s|)
    ensures |s| <= 9 ==> DigitsValue(s) * Pow10(9 - |s|) < NanosPerSecond
    decreases |s|
  {
    if s != [] {
      DigitsBound(s[..|s| - 1]);
    }
    if |s| <= 9 {
      Pow10Split(|s|, 9 - |s|);
      assert Pow10(9) == NanosPerSecond;
      ScaleBelow(DigitsValue(s), Pow10(|s|), Pow10(9 - |s|));
    }
  }

  lemma ScaleBelow(a: nat, b: nat, c: nat)
    requires a < b && c >= 1
    ensures a * c < b * c
  {
  }

  /** Three digits of milliseconds make less than a second. */
  lemma MillisBound(s: string)
    requires AllDigits(s) && |s| == 3
    ensures DigitsValue(s) < 1000
  {
    DigitsBound(s);
    assert Pow10(3) == 1000;
  }

  lemma {:induction false} Pow10Split(a: nat, b: nat)
    ensures Pow10(a + b) == Pow10(a) * Pow10(b)
    decreases a
  {
    if a > 0 {
      Pow10Split(a - 1, b);
    }
  }

  /** chrono's field ranges for `%H`, `%M`, `%S` (second 60, a leap second, is refused). */
  function TimeOf(h: nat, m: nat, s: nat, ns: nat): (r: Option<Time>)
    requires ns < NanosPerSecond
    ensures r.Some? <==> h < 24 && m < 60 && s < 60
  {
    if h < 24 && m < 60 && s < 60 then Some(FromParts(h, m, s, ns)) else None
  }

  /** The fields of `%H:%M:%S`: hour, minute and second, and the text after them. */
  datatype Clock = Clock(hour: nat, minute: nat, second: nat, rest: string)

  function ScanClock(s: string): Option<Clock> {
    var hh :- ScanNumber(s, 2);
    var r1 :- ExpectChar(hh.rest, ':');
    var mm :- ScanNumber(r1, 2);
    var r2 :- ExpectChar(mm.rest, ':');
    var ss :- ScanNumber(r2, 2);
    Some(Clock(hh.value, mm.value, ss.value, ss.rest))
  }

  /** `NaiveTime::parse_from_str(s, "%H:%M:%S%.f")`. */
  function ParseAssTime(s: string): Option<Time> {
    var c :- ScanClock(s);
    var frac :- ScanFraction(c.rest);
    if frac.rest != [] then None else TimeOf(c.hour, c.minute, c.second, frac.value)
  }

  /** `NaiveTime::parse_from_str(s, "%H:%M:%S,%3f")`: exactly three digits of milliseconds. */
  function ParseSrtTime(s: string): Option<Time> {
    var c :- ScanClock(s);
    var rest :- ExpectChar(c.rest, ',');
    var millis :- ThreeDigits(rest);
    TimeOf(c.hour, c.minute, c.second, millis * 1_000_000)
  }

  /** chrono's `%3f`: exactly three digits, and nothing after them. */
  function ThreeDigits(s: string): (r: Option<nat>)
    ensures r.Some? ==> r.value < 1000
  {
    if LeadingDigits(s, 3) != 3 || |s| != 3 then None
    else
      assert s[..3] == s;
      MillisBound(s);
      Some(DigitsValue(s))
  }

  /** The time rounded down to whole hundredths of a second. */
  function TruncateToHundredths(t: Time): Time {
    t - t % 10_000_000
  }

  /** The time rounded down to whole milliseconds. */
  function TruncateToMillis(t: Time): Time {
    t - t % 1_000_000
  }

  /** The emitter's `H:MM:SS.CC`: `%k:%M:%S` with the hour's padding trimmed, then the
      nanoseconds divided by 10^7 (truncated) as two zero-padded digits. */
  function FormatHundredths(t: Time): string {
    NatToString(Hour(t)) + ":" + Pad2(Minute(t)) + ":" + Pad2(Second(t)) + "."
      + Pad2(Nanosecond(t) / 10_000_000)
  }

  /** `HH:MM:SS,mmm`, the timing format of an SRT file. */
  function FormatMillis(t: Time): string {
    Pad2(Hour(t)) + ":" + Pad2(Minute(t)) + ":" + Pad2(Second(t)) + "," + Pad3(Nanosecond(t) / 1_000_000)
  }

  lemma ScanNumberOf(d: string, rest: string, max: nat)
    requires d != [] && AllDigits(d) && |d| <= max
    requires |d| == max || rest == [] || !IsDigit(rest[0])
    ensures ScanNumber(d + rest, max) == Some(Scanned(DigitsValue(d), rest))
  {
    LeadingDigitsOf(d, rest, max);
    assert (d + rest)[..|d|] == d;
    assert (d + rest)[|d|..] == rest;
  }

  lemma ClockTextShape(hs: string, ms: string, ss: string, tail: string)
    ensures hs + ":" + ms + ":" + ss + tail == hs + ([':'] + (ms + ([':'] + (ss + tail))))
  {
  }

  /** One numeric field followed by the separator `c`. */
  lemma ScanFieldThen(d: string, c: char, rest: string)
    requires 1 <= |d| <= 2 && AllDigits(d) && !IsDigit(c)
    ensures ScanNumber(d + ([c] + rest), 2) == Some(Scanned(DigitsValue(d), [c] + rest))
    ensures ExpectChar([c] + rest, c) == Some(rest)
  {
    ScanNumberOf(d, [c] + rest, 2);
    assert ([c] + rest)[1..] == rest;
  }

  lemma ScanClockOf(hs: string, ms: string, ss: string, tail: string)
    requires 1 <= |hs| <= 2 && 1 <= |ms| <= 2 && 1 <= |ss| <= 2
    requires AllDigits(hs) && AllDigits(ms) && AllDigits(ss)
    requires |ss| == 2 || tail == [] || !IsDigit(tail[0])
    ensures ScanClock(hs + ":" + ms + ":" + ss + tail)
      == Some(Clock(DigitsValue(hs), DigitsValue(ms), DigitsValue(ss), tail))
  {
    ClockTextShape(hs, ms, ss, tail);
    var tail2 := ss + tail;
    var tail1 := ms + ([':'] + tail2);
    var text := hs + ([':'] + tail1);
    ScanFieldThen(hs, ':', tail1);
    ScanFieldThen(ms, ':', tail2);
    ScanNumberOf(ss, tail, 2);
    assert ScanClock(text) == Some(Clock(DigitsValue(hs), DigitsValue(ms), DigitsValue(ss), tail));
  }

  lemma {:induction false} TruncatedParts(t: Time, unit: nat)
    requires unit == 10_000_000 || unit == 1_000_000
    ensures t - t % unit
      == FromParts(Hour(t), Minute(t), Second(t), Nanosecond(t) / unit * unit)
  {
    TimeFromItsParts(t);
    var base := Hour(t) * NanosPerHour + Minute(t) * NanosPerMinute + Second(t) * NanosPerSecond;
    assert base == (Hour(t) * 3600 + Minute(t) * 60 + Second(t)) * NanosPerSecond;
    TruncateAbove(Hour(t) * 3600 + Minute(t) * 60 + Second(t), Nanosecond(t), unit);
  }

  /** Truncating to `unit` leaves whole seconds alone. */
  lemma TruncateAbove(secs: nat, ns: nat, unit: nat)
    requires unit == 10_000_000 || unit == 1_000_000
    ensures var t := secs * NanosPerSecond + ns;
      t - t % unit == secs * NanosPerSecond + ns / unit * unit
  {
    if unit == 10_000_000 {
      ModShift(secs * 100, ns, 10_000_000);
    } else {
      ModShift(secs * 1000, ns, 1_000_000);
    }
  }

  lemma ModShift(q: nat, ns: nat, unit: nat)
    requires unit == 10_000_000 || unit == 1_000_000
    ensures (q * unit + ns) % unit == ns % unit
    ensures ns / unit * unit == ns - ns % unit
  {
    if unit == 10_000_000 {
      assert (q * 10_000_000 + ns) % 10_000_000 == ns % 10_000_000;
    } else {
      assert (q * 1_000_000 + ns) % 1_000_000 == ns % 1_000_000;
    }
  }

  lemma LastTwoTogether(a: string, b: string, c: string, d: string, e: string, f: string, g: string)
    ensures a + b + c + d + e + f + g == a + b + c + d + e + (f + g)
  {
  }

  /** `.CC` read under `%.f` gives the hundredths as nanoseconds. */
  lemma HundredthsFraction(cs: nat)
    requires cs < 100
    ensures ScanFraction("." + Pad2(cs)) == Some(Scanned(cs * 10_000_000, []))
  {
    var css := Pad2(cs);
    LeadingDigitsOf(css, [], 9);
    assert ("." + css)[1..] == css && css + [] == css;
    assert css[..2] == css && css[2..] == [];
    assert Pow10(7) == 10_000_000;
  }

  lemma ParseAssTimeOf(text: string, c: Clock, ns: nat)
    requires ScanClock(text) == Some(c)
    requires ScanFraction(c.rest) == Some(Scanned(ns, []))
    ensures ns < NanosPerSecond
    ensures ParseAssTime(text) == TimeOf(c.hour, c.minute, c.second, ns)
  {
  }

  /** Reading `H:MM:SS.CC` back under `%H:%M:%S%.f` gives the time truncated to hundredths:
      the emitter loses the digits below a hundredth and nothing else. */
  lemma {:induction false} FormatHundredthsRoundTrip(t: Time)
    ensures ParseAssTime(FormatHundredths(t)) == Some(TruncateToHundredths(t))
  {
    var h, m, s := Hour(t), Minute(t), Second(t);
    var cs := Nanosecond(t) / 10_000_000;
    var hs, ms, ss, css := NatToString(h), Pad2(m), Pad2(s), Pad2(cs);
    LastTwoTogether(hs, ":", ms, ":", ss, ".", css);
    NatToStringValue(h);
    ScanClockOf(hs, ms, ss, "." + css);
    HundredthsFraction(cs);
    var text := FormatHundredths(t);
    assert text == hs + ":" + ms + ":" + ss + ("." + css);
    ParseAssTimeOf(text, Clock(h, m, s, "." + css), cs * 10_000_000);
    TruncatedParts(t, 10_000_000);
    var ns := cs * 10_000_000;
    assert ParseAssTime(text) == TimeOf(h, m, s, ns);
    assert TimeOf(h, m, s, ns) == Some(FromParts(h, m, s, ns));
    assert FromParts(h, m, s, ns) == TruncateToHundredths(t);
  }

  /** Reading `HH:MM:SS,mmm` back under `%H:%M:%S,%3f` gives the time truncated to milliseconds. */
  lemma {:induction false} FormatMillisRoundTrip(t: Time)
    ensures ParseSrtTime(FormatMillis(t)) == Some(TruncateToMillis(t))
  {
    var h, m, s := Hour(t), Minute(t), Second(t);
    var millis := Nanosecond(t) / 1_000_000;
    var hs, ms, ss, fs := Pad2(h), Pad2(m), Pad2(s), Pad3(millis);
    var text := FormatMillis(t);
    LastTwoTogether(hs, ":", ms, ":", ss, ",", fs);
    assert text == hs + ":" + ms + ":" + ss + ("," + fs);
    ScanClockOf(hs, ms, ss, "," + fs);
    assert ("," + fs)[1..] == fs;
    LeadingDigitsOf(fs, [], 3);
    assert fs + [] == fs;
    assert ThreeDigits(fs) == Some(millis);
    assert ParseSrtTime(text) == TimeOf(h, m, s, millis * 1_000_000);
    TruncatedParts(t, 1_000_000);
    assert TimeOf(h, m, s, millis * 1_000_000) == Some(FromParts(h, m, s, millis * 1_000_000));
    assert FromParts(h, m, s, millis * 1_000_000) == TruncateToMillis(t);
  }
}
