/** The uptime string of `GET /instance`: the `Hours`, `Minutes` and `Seconds`
    components of a `TimeSpan`, each written with the `D2` format and joined by
    colons. Times are .NET ticks (100 ns); the components are those of the
    whole seconds of the span. */
module Uptime {

  const TicksPerSecond: nat := 10_000_000
  const SecondsPerDay: nat := 86_400
  const TicksPerDay: nat := 864_000_000_000

  /** The `Hours`, `Minutes` and `Seconds` components of a `TimeSpan`. */
  datatype Clock = Clock(hours: nat, minutes: nat, seconds: nat)

  predicate IsDigit(c: char)
  {
    '0' <= c <= '9'
  }

  function DigitValue(c: char): int
  {
    c as int - '0' as int
  }

  /** The number that two decimal digit characters denote. */
  function TwoDigitValue(hi: char, lo: char): int
  {
    10 * DigitValue(hi) + DigitValue(lo)
  }

  /** `n.ToString("D2")` for a value below 100: two digits, zero-padded. */
  function Pad2(n: nat): (r: string)
    requires n < 100
    ensures |r| == 2 && IsDigit(r[0]) && IsDigit(r[1])
    ensures TwoDigitValue(r[0], r[1]) == n
  {
    [('0' as int + n / 10) as char, ('0' as int + n % 10) as char]
  }

  /** Whole elapsed seconds of a non-negative span given in ticks. */
  function WholeSeconds(elapsedTicks: int): nat
    requires elapsedTicks >= 0
  {
    elapsedTicks / TicksPerSecond
  }

  /** `TimeSpan.Hours`, `.Minutes`, `.Seconds`: the hours component wraps every
      24 hours, so the three components spell the time of day of the span. */
  function Components(elapsedTicks: int): (c: Clock)
    requires elapsedTicks >= 0
    ensures c.hours < 24 && c.minutes < 60 && c.seconds < 60
    ensures var s := WholeSeconds(elapsedTicks);
      c.hours == (s / 3600) % 24 && c.minutes == (s / 60) % 60 && c.seconds == s % 60
    ensures c.hours * 3600 + c.minutes * 60 + c.seconds == WholeSeconds(elapsedTicks) % SecondsPerDay
  {
    var s := WholeSeconds(elapsedTicks);
    ClockSpellsTimeOfDay(s);
    Clock((s / 3600) % 24, (s / 60) % 60, s % 60)
  }

  /** Division with a known quotient and remainder. */
  lemma DivModOf(a: int, b: int, q: int, r: int)
    requires b > 0 && 0 <= r < b && a == b * q + r
    ensures a / b == q && a % b == r
  {
    var k := q - a / b;
    assert b * k == a % b - r;
    if k > 0 {
      MulAtLeast(b, k);
    } else if k < 0 {
      MulAtLeast(b, -k);
    }
  }

  lemma MulAtLeast(b: int, k: int)
    requires b > 0 && k >= 1
    ensures b * k >= b
  {
  }

  /** Hours, minutes and seconds components rebuild the seconds within the day. */
  lemma ClockSpellsTimeOfDay(s: nat)
    ensures ((s / 3600) % 24) * 3600 + ((s / 60) % 60) * 60 + s % 60 == s % SecondsPerDay
  {
    var q, sec := s / 60, s % 60;
    var r, m := q / 60, q % 60;
    var d, h := r / 24, r % 24;
    assert s == 86400 * d + (3600 * h + 60 * m + sec);
    DivModOf(s, 3600, r, 60 * m + sec);
    DivModOf(s, SecondsPerDay, d, 3600 * h + 60 * m + sec);
  }

  /** `$"{uptime.Hours:D2}:{uptime.Minutes:D2}:{uptime.Seconds:D2}"`. */
  function Format(elapsedTicks: int): (r: string)
    requires elapsedTicks >= 0
    ensures |r| == 8 && r[2] == ':' && r[5] == ':'
    ensures forall i :: 0 <= i < 8 && i != 2 && i != 5 ==> IsDigit(r[i])
    ensures var c := Components(elapsedTicks);
      && TwoDigitValue(r[0], r[1]) == c.hours
      && TwoDigitValue(r[3], r[4]) == c.minutes
      && TwoDigitValue(r[6], r[7]) == c.seconds
  {
    var c := Components(elapsedTicks);
    Pad2(c.hours) + ":" + Pad2(c.minutes) + ":" + Pad2(c.seconds)
  }

  /** Reads an `HH:MM:SS` string back as a number of seconds. */
  function ParseClock(r: string): int
    requires |r| == 8
  {
    TwoDigitValue(r[0], r[1]) * 3600 + TwoDigitValue(r[3], r[4]) * 60 + TwoDigitValue(r[6], r[7])
  }

  /** The uptime string determines the elapsed whole seconds modulo one day. */
  lemma RoundTrip(elapsedTicks: int)
    requires elapsedTicks >= 0
    ensures ParseClock(Format(elapsedTicks)) == WholeSeconds(elapsedTicks) % SecondsPerDay
  {
  }

  /** One more day of uptime leaves the string unchanged. */
  lemma OneDayLater(elapsedTicks: int)
    requires elapsedTicks >= 0
    ensures Format(elapsedTicks + TicksPerDay) == Format(elapsedTicks)
  {
    var s := WholeSeconds(elapsedTicks);
    DivModOf(elapsedTicks + TicksPerDay, TicksPerSecond, s + SecondsPerDay, elapsedTicks % TicksPerSecond);
    DivModOf(s + SecondsPerDay, 3600, s / 3600 + 24, s % 3600);
    DivModOf(s + SecondsPerDay, 60, s / 60 + 1440, s % 60);
    DivModOf(s / 3600 + 24, 24, (s / 3600) / 24 + 1, (s / 3600) % 24);
    DivModOf(s / 60 + 1440, 60, (s / 60) / 60 + 24, (s / 60) % 60);
    assert Components(elapsedTicks + TicksPerDay) == Components(elapsedTicks);
  }

  /** Uptimes that differ by whole days format identically. */
  lemma {:induction false} WrapsDaily(elapsedTicks: int, days: nat)
    requires elapsedTicks >= 0
    ensures Format(elapsedTicks + days * TicksPerDay) == Format(elapsedTicks)
  {
    if days > 0 {
      var earlier := elapsedTicks + (days - 1) * TicksPerDay;
      WrapsDaily(elapsedTicks, days - 1);
      OneDayLater(earlier);
      assert elapsedTicks + days * TicksPerDay == earlier + TicksPerDay;
    }
  }

  /** The uptime string is not monotone: one second after 23:59:59 it reads 00:00:00. */
  lemma NotMonotone()
    ensures Format(TicksPerDay - TicksPerSecond) == "23:59:59"
    ensures Format(TicksPerDay) == "00:00:00"
  {
    DivModOf(TicksPerDay - TicksPerSecond, TicksPerSecond, 86_399, 0);
    DivModOf(86_399, 3600, 23, 3599);
    DivModOf(23, 24, 0, 23);
    DivModOf(86_399, 60, 1439, 59);
    DivModOf(1439, 60, 23, 59);
    assert Components(TicksPerDay - TicksPerSecond) == Clock(23, 59, 59);
    DivModOf(TicksPerDay, TicksPerSecond, SecondsPerDay, 0);
    DivModOf(SecondsPerDay, 3600, 24, 0);
    DivModOf(24, 24, 1, 0);
    DivModOf(SecondsPerDay, 60, 1440, 0);
    DivModOf(1440, 60, 24, 0);
    assert Components(TicksPerDay) == Clock(0, 0, 0);
    assert Pad2(23) == "23" && Pad2(59) == "59" && Pad2(0) == "00";
  }
}
