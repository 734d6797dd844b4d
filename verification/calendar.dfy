/**
 * Calendar times as Python's naive `datetime` holds them at minute resolution,
 * the ten-digit `YYMMDDHHmm` form the timetable service writes them in, and
 * the instant (seconds since 0001-01-01T00:00:00) the rest of the model compares.
 */
module Calendar {
  import opened Optional
  import opened Decimal

  /** Seconds since 0001-01-01T00:00:00, Python's `datetime(1, 1, 1)`. */
  type Instant = int

  const SecondsPerMinute: int := 60
  const SecondsPerHour: int := 3600

  datatype DateTime = DateTime(year: int, month: int, day: int, hour: int, minute: int)

  predicate IsLeapYear(y: int)
  {
    y % 4 == 0 && (y % 100 != 0 || y % 400 == 0)
  }

  function DaysInMonth(y: int, m: int): (n: nat)
    requires 1 <= m <= 12
    ensures 28 <= n <= 31
  {
    if m == 2 then (if IsLeapYear(y) then 29 else 28)
    else if m == 4 || m == 6 || m == 9 || m == 11 then 30
    else 31
  }

  /** What Python's `datetime(year, month, day, hour, minute)` accepts without a ValueError. */
  predicate ValidDateTime(dt: DateTime)
  {
    && 1 <= dt.year <= 9999
    && 1 <= dt.month <= 12
    && 1 <= dt.day <= DaysInMonth(dt.year, dt.month)
    && 0 <= dt.hour < 24
    && 0 <= dt.minute < 60
  }

  /** A date and time Python could construct. */
  type Timestamp = dt: DateTime | ValidDateTime(dt) witness DateTime(1, 1, 1, 0, 0)

  function DaysBeforeYear(y: int): nat
    requires y >= 1
  {
    var p := y - 1;
    365 * p + p / 4 - p / 100 + p / 400
  }

  function DaysBeforeMonth(y: int, m: int): nat
    requires 1 <= m <= 12
  {
    if m == 1 then 0 else DaysBeforeMonth(y, m - 1) + DaysInMonth(y, m - 1)
  }

  function DayNumber(dt: DateTime): nat
    requires ValidDateTime(dt)
  {
    DaysBeforeYear(dt.year) + DaysBeforeMonth(dt.year, dt.month) + dt.day - 1
  }

  /** The instant a valid date and time stands for; it falls on a whole minute. */
  function ToInstant(dt: DateTime): (t: Instant)
    requires ValidDateTime(dt)
    ensures t >= 0
    ensures t % SecondsPerMinute == 0
    ensures t % SecondsPerHour == dt.minute * SecondsPerMinute
  {
    var hours := DayNumber(dt) * 24 + dt.hour;
    AlignedMod(hours, dt.minute);
    (hours * 60 + dt.minute) * 60
  }

  lemma AlignedMod(hours: nat, minute: int)
    requires 0 <= minute < 60
    ensures ((hours * 60 + minute) * 60) % 60 == 0
    ensures ((hours * 60 + minute) * 60) % 3600 == minute * 60
  {
    assert (hours * 60 + minute) * 60 == hours * 3600 + minute * 60;
  }

  /** `datetime(t.year, t.month, t.day, t.hour)`: the start of the hour holding `t`. */
  function FloorHour(t: Instant): (h: Instant)
    ensures h % SecondsPerHour == 0
    ensures h <= t < h + SecondsPerHour
  {
    t - t % SecondsPerHour
  }

  /** Dropping minutes and seconds of a calendar time is rounding its instant down to the hour. */
  lemma FloorHourIsCalendarHour(dt: DateTime, seconds: int)
    requires ValidDateTime(dt) && 0 <= seconds < SecondsPerMinute
    ensures ValidDateTime(dt.(minute := 0))
    ensures FloorHour(ToInstant(dt) + seconds) == ToInstant(dt.(minute := 0))
  {
    var t0 := ToInstant(dt.(minute := 0));
    assert ToInstant(dt) == t0 + dt.minute * 60;
    assert 0 <= dt.minute * 60 + seconds < 3600;
    assert t0 % 3600 == 0;
    ModOfAlignedPlus(t0, dt.minute * 60 + seconds);
  }

  lemma ModOfAlignedPlus(t0: int, r: int)
    requires t0 % 3600 == 0 && 0 <= r < 3600
    ensures (t0 + r) % 3600 == r
  {
    var q := t0 / 3600;
    assert t0 == 3600 * q;
    assert t0 + r == 3600 * q + r;
  }

  /** The ten characters `YYMMDDHHmm` (two digits each, the year modulo 100). */
  function TimeField(dt: DateTime): (s: string)
    requires ValidDateTime(dt)
    ensures |s| == 10 && AllDigits(s)
  {
    AllDigitsAppend(Pad2(dt.year % 100), Pad2(dt.month));
    AllDigitsAppend(Pad2(dt.year % 100) + Pad2(dt.month), Pad2(dt.day));
    AllDigitsAppend(Pad2(dt.year % 100) + Pad2(dt.month) + Pad2(dt.day), Pad2(dt.hour));
    AllDigitsAppend(Pad2(dt.year % 100) + Pad2(dt.month) + Pad2(dt.day) + Pad2(dt.hour), Pad2(dt.minute));
    Pad2(dt.year % 100) + Pad2(dt.month) + Pad2(dt.day) + Pad2(dt.hour) + Pad2(dt.minute)
  }

  /**
   * `_parse_fulltime`: exactly ten digits read as `YYMMDDHHmm` in the years 2000 to 2099.
   * None stands for the failed assertion (no match) and for the ValueError of an impossible date.
   */
  function ParseFullTime(s: string): (r: Option<DateTime>)
    ensures r.Some? ==> |s| == 10 && AllDigits(s)
    ensures r.Some? ==> ValidDateTime(r.value) && 2000 <= r.value.year <= 2099
  {
    if |s| == 10 && AllDigits(s) then
      var dt := DateTime(2000 + Value(s[0..2]), Value(s[2..4]), Value(s[4..6]),
                         Value(s[6..8]), Value(s[8..10]));
      if ValidDateTime(dt) then Some(dt) else None
    else
      None
  }

  /** Two digits read back through `'{:02}'` give the same two characters. */
  lemma Pad2OfValue(s: string)
    requires |s| == 2 && AllDigits(s)
    ensures Value(s) < 100
    ensures Pad2(Value(s)) == s
  {
    var d0, d1 := DigitValue(s[0]), DigitValue(s[1]);
    Value2(s);
    CharOfDigit(s[0]);
    CharOfDigit(s[1]);
    var n := 10 * d0 + d1;
    assert s == [DigitChar(d0), DigitChar(d1)];
    if d0 != 0 {
      DivMod10(d0, d1);
      assert NatToString(n) == NatToString(d0) + [DigitChar(d1)];
    }
  }

  /** The five two-character fields of a ten-character string. */
  lemma Fields5(a: string, b: string, c: string, d: string, e: string)
    requires |a| == 2 && |b| == 2 && |c| == 2 && |d| == 2 && |e| == 2
    ensures var s := a + b + c + d + e;
      s[0..2] == a && s[2..4] == b && s[4..6] == c && s[6..8] == d && s[8..10] == e
  {
  }

  lemma Split5(s: string)
    requires |s| == 10
    ensures s == s[0..2] + s[2..4] + s[4..6] + s[6..8] + s[8..10]
  {
  }

  /** Rendering then parsing gives back every valid time of the years 2000 to 2099. */
  lemma ParseFullTimeOfTimeField(dt: DateTime)
    requires ValidDateTime(dt) && 2000 <= dt.year <= 2099
    ensures ParseFullTime(TimeField(dt)) == Some(dt)
  {
    var s := TimeField(dt);
    Fields5(Pad2(dt.year % 100), Pad2(dt.month), Pad2(dt.day), Pad2(dt.hour), Pad2(dt.minute));
    Pad2RoundTrip(dt.year % 100);
    Pad2RoundTrip(dt.month);
    Pad2RoundTrip(dt.day);
    Pad2RoundTrip(dt.hour);
    Pad2RoundTrip(dt.minute);
    var parsed := DateTime(2000 + Value(s[0..2]), Value(s[2..4]), Value(s[4..6]),
                           Value(s[6..8]), Value(s[8..10]));
    assert parsed == dt;
  }

  /** Parsing then rendering gives back every string the parser accepts. */
  lemma TimeFieldOfParseFullTime(s: string)
    requires ParseFullTime(s).Some?
    ensures TimeField(ParseFullTime(s).value) == s
  {
    var dt := ParseFullTime(s).value;
    Split5(s);
    Pad2OfValue(s[0..2]);
    Pad2OfValue(s[2..4]);
    Pad2OfValue(s[4..6]);
    Pad2OfValue(s[6..8]);
    Pad2OfValue(s[8..10]);
    assert dt.year % 100 == Value(s[0..2]);
  }
}
