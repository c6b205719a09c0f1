/**
 * The uptime page splits the seconds since boot into days, hours, minutes
 * and seconds. The loop reads the seconds as a float and divides by 60, 60
 * and 24, takes float remainders and truncates with `int`; this module states
 * that computation on `real` and proves it equal to plain integer division on
 * the whole seconds elapsed.
 */
module Uptime {

  datatype Duration = Duration(days: int, hours: int, minutes: int, seconds: int)

  /** The number of seconds a duration stands for. */
  function TotalSeconds(d: Duration): int {
    d.days * 86400 + d.hours * 3600 + d.minutes * 60 + d.seconds
  }

  /** Every field in its range: hours below 24, minutes and seconds below 60. */
  predicate Normal(d: Duration) {
    d.days >= 0 && 0 <= d.hours < 24 && 0 <= d.minutes < 60 && 0 <= d.seconds < 60
  }

  lemma DivisionChain(s: nat)
    ensures s / 60 / 60 == s / 3600
    ensures s / 3600 / 24 == s / 86400
  {
  }

  /** Days, hours of the day, minutes of the hour and seconds of the minute. */
  function Decompose(s: nat): (d: Duration)
    ensures Normal(d)
    ensures TotalSeconds(d) == s
  {
    DivisionChain(s);
    Duration(s / 86400, (s / 3600) % 24, (s / 60) % 60, s % 60)
  }

  /** A normal duration is the decomposition of its own seconds: the split is unique. */
  lemma DecomposeInverse(d: Duration)
    requires Normal(d)
    ensures Decompose(TotalSeconds(d)) == d
  {
    var s := TotalSeconds(d);
    assert 0 <= d.hours * 3600 + d.minutes * 60 + d.seconds < 86400;
    assert s / 86400 == d.days;
    var m := d.days * 1440 + d.hours * 60 + d.minutes;
    assert s == 60 * m + d.seconds;
    assert s / 60 == m && s % 60 == d.seconds;
    assert m % 60 == d.minutes;
    var h := d.days * 24 + d.hours;
    assert s == 3600 * h + (d.minutes * 60 + d.seconds);
    assert s / 3600 == h;
    assert h % 24 == d.hours;
  }

  /** Python's `int(y)` on a float: truncation toward zero. */
  function Trunc(y: real): int {
    if y >= 0.0 then y.Floor else -((-y).Floor)
  }

  /** Python's `y % m` on floats with a positive divisor: the remainder of floored division. */
  function FloatMod(y: real, m: real): real
    requires m > 0.0
  {
    y - m * ((y / m).Floor as real)
  }

  /** The uptime split as the loop computes it from the float read at boot. */
  function UptimeParts(elapsed: real): Duration {
    var minutes := elapsed / 60.0;
    var hours := minutes / 60.0;
    var days := hours / 24.0;
    Duration(Trunc(days), Trunc(FloatMod(hours, 24.0)), Trunc(FloatMod(minutes, 60.0)), Trunc(FloatMod(elapsed, 60.0)))
  }

  /** Flooring a quotient by a whole divisor is integer division of the floor. */
  lemma FloorQuotient(x: real, m: int)
    requires x >= 0.0 && m > 0
    ensures (x / m as real).Floor == x.Floor / m
  {
    var n := x.Floor;
    var q, r := n / m, n % m;
    assert n == q * m + r && 0 <= r < m;
    assert (q * m) as real <= x < (q * m + m) as real;
    assert (q * m) as real == q as real * m as real;
    assert (q * m + m) as real == (q + 1) as real * m as real;
    assert q as real <= x / m as real < (q + 1) as real;
  }

  /** Removing a whole number from a real moves its floor by that number. */
  lemma FloorShift(y: real, k: int)
    ensures (y - k as real).Floor == y.Floor - k
  {
  }

  /**
   * The float remainder of `y` by a whole divisor `m`, truncated, is the
   * floor of `y` modulo `m`.
   */
  lemma TruncatedRemainder(y: real, m: int)
    requires y >= 0.0 && m > 0
    ensures Trunc(FloatMod(y, m as real)) == y.Floor % m
  {
    FloorQuotient(y, m);
    var k := m * (y.Floor / m);
    assert FloatMod(y, m as real) == y - k as real;
    FloorShift(y, k);
  }

  /**
   * For any non-negative uptime, the float computation gives exactly the
   * integer decomposition of the whole seconds elapsed.
   */
  lemma UptimePartsExact(elapsed: real)
    requires elapsed >= 0.0
    ensures UptimeParts(elapsed) == Decompose(elapsed.Floor)
  {
    var n := elapsed.Floor;
    var minutes := elapsed / 60.0;
    var hours := minutes / 60.0;
    FloorQuotient(elapsed, 60);
    FloorQuotient(minutes, 60);
    FloorQuotient(hours, 24);
    DivisionChain(n);
    assert minutes.Floor == n / 60 && hours.Floor == n / 3600;
    TruncatedRemainder(hours, 24);
    TruncatedRemainder(minutes, 60);
    TruncatedRemainder(elapsed, 60);
  }

  /** The worked example: 93725 seconds are 1 day, 2 hours, 2 minutes and 5 seconds. */
  lemma UptimeExample()
    ensures Decompose(93725) == Duration(1, 2, 2, 5)
    ensures UptimeParts(93725.0) == Duration(1, 2, 2, 5)
  {
  }
}
