/** The `[HH:MM:SS]` timestamp written at the head of every paragraph:
    `time.strftime('%H:%M:%S', time.gmtime(t))` inside square brackets. */
module Clock {

  /** Hour, minute and second of a UTC time of day. */
  datatype TimeOfDay = TimeOfDay(hours: int, minutes: int, seconds: int)

  const SecondsPerDay := 86400

  /** The `tm_hour`, `tm_min` and `tm_sec` fields of `time.gmtime(t)`. `gmtime`
      rounds `t` towards minus infinity to whole seconds; the date part of the
      result is not used, so only the position within the day matters. */
  function ClockOf(t: real): (c: TimeOfDay)
    ensures 0 <= c.hours < 24 && 0 <= c.minutes < 60 && 0 <= c.seconds < 60
    ensures (t.Floor - (3600 * c.hours + 60 * c.minutes + c.seconds)) % SecondsPerDay == 0
  {
    var s := t.Floor % SecondsPerDay;
    var c := TimeOfDay(s / 3600, s % 3600 / 60, s % 60);
    assert 3600 * c.hours + 60 * c.minutes + c.seconds == s;
    c
  }

  /** The digit character for `d`. */
  function Digit(d: int): char
    requires 0 <= d < 10
  {
    ('0' as int + d) as char
  }

  /** The value of a digit character (arbitrary for other characters). */
  function DigitValue(c: char): int
  {
    c as int - '0' as int
  }

  /** `n` printed with two digits and a leading zero, as `%H`, `%M` and `%S` do. */
  function TwoDigits(n: int): (r: string)
    requires 0 <= n < 100
    ensures |r| == 2 && '0' <= r[0] <= '9' && '0' <= r[1] <= '9'
    ensures 10 * DigitValue(r[0]) + DigitValue(r[1]) == n
  {
    [Digit(n / 10), Digit(n % 10)]
  }

  /** The bracketed timestamp `[HH:MM:SS]` of the speaker segment starting at `t`. */
  function Timestamp(t: real): (r: string)
    ensures |r| == 10 && r[0] == '[' && r[3] == ':' && r[6] == ':' && r[9] == ']'
  {
    var c := ClockOf(t);
    "[" + TwoDigits(c.hours) + ":" + TwoDigits(c.minutes) + ":" + TwoDigits(c.seconds) + "]"
  }

  /** The hour, minute and second a reader takes from a `[HH:MM:SS]` timestamp. */
  function ReadTimestamp(r: string): TimeOfDay
    requires |r| == 10
  {
    TimeOfDay(10 * DigitValue(r[1]) + DigitValue(r[2]),
              10 * DigitValue(r[4]) + DigitValue(r[5]),
              10 * DigitValue(r[7]) + DigitValue(r[8]))
  }

  /** The timestamp shows the time of day of `t` in digits; every field is in range
      and together they are `floor(t)` modulo one day. */
  lemma TimestampShowsClock(t: real)
    ensures var r := Timestamp(t);
      (forall i :: i in {1, 2, 4, 5, 7, 8} ==> '0' <= r[i] <= '9') &&
      ReadTimestamp(r) == ClockOf(t)
  {
    var c := ClockOf(t);
    var h, m, s := TwoDigits(c.hours), TwoDigits(c.minutes), TwoDigits(c.seconds);
    var r := Timestamp(t);
    assert r == "[" + h + ":" + m + ":" + s + "]";
    assert r[1] == h[0] && r[2] == h[1] && r[4] == m[0] && r[5] == m[1] && r[7] == s[0] && r[8] == s[1];
  }

  /** Two second counts within one day that agree modulo a day are equal. */
  lemma SameSecondOfDay(a: int, x: int, y: int)
    requires 0 <= x < SecondsPerDay && 0 <= y < SecondsPerDay
    requires (a - x) % SecondsPerDay == 0 && (a - y) % SecondsPerDay == 0
    ensures x == y
  {
    var k := (a - x) / SecondsPerDay;
    var l := (a - y) / SecondsPerDay;
    assert a - x == SecondsPerDay * k;
    assert a - y == SecondsPerDay * l;
    assert x - y == SecondsPerDay * (l - k);
  }

  /** In-range hours, minutes and seconds are determined by the second of the
      day they denote. */
  lemma FieldsOfSecond(c: TimeOfDay, d: TimeOfDay)
    requires 0 <= c.hours && 0 <= c.minutes < 60 && 0 <= c.seconds < 60
    requires 0 <= d.hours && 0 <= d.minutes < 60 && 0 <= d.seconds < 60
    requires 3600 * c.hours + 60 * c.minutes + c.seconds == 3600 * d.hours + 60 * d.minutes + d.seconds
    ensures c == d
  {
  }

  /** The fields of `ClockOf(t)` are the only in-range ones congruent to `floor(t)`. */
  lemma ClockOfUnique(t: real, c: TimeOfDay)
    requires 0 <= c.hours < 24 && 0 <= c.minutes < 60 && 0 <= c.seconds < 60
    requires (t.Floor - (3600 * c.hours + 60 * c.minutes + c.seconds)) % SecondsPerDay == 0
    ensures c == ClockOf(t)
  {
    var d := ClockOf(t);
    var x := 3600 * c.hours + 60 * c.minutes + c.seconds;
    var y := 3600 * d.hours + 60 * d.minutes + d.seconds;
    SameSecondOfDay(t.Floor, x, y);
    FieldsOfSecond(c, d);
  }

  /** The example of a segment starting 3661 seconds in. */
  lemma TimestampExample()
    ensures Timestamp(3661.0) == "[01:01:01]"
  {
  }
}
