/** Time-of-day helpers of `src/util/time.util.ts`. */
module TimeUtil {
  import opened JsText

  /** A local wall-clock time, the source's `[Hour24, Minute]` pair. */
  datatype Clock = Clock(hour: int, minute: int)

  predicate ValidClock(t: Clock) { 0 <= t.hour < 24 && 0 <= t.minute < 60 }

  const MinutesPerDay: int := 1440

  /** Minutes since midnight. */
  function MinuteOfDay(t: Clock): int { t.hour * 60 + t.minute }

  /** The clock that is `m` minutes past midnight. */
  function ClockAt(m: int): (r: Clock)
    requires 0 <= m < MinutesPerDay
    ensures ValidClock(r) && MinuteOfDay(r) == m
  {
    Clock(m / 60, m % 60)
  }

  /**
   * `addMinutes(time, delta)`: the time `delta` minutes later (earlier when `delta` is
   * negative), wrapping round midnight in either direction.
   */
  function AddMinutes(t: Clock, delta: int): (r: Clock)
    requires ValidClock(t)
    ensures ValidClock(r)
  {
    ClockAt((MinuteOfDay(t) + delta) % MinutesPerDay)
  }

  /** The minute sum carries whole hours (possibly negative ones) into the hour, which wraps mod 24. */
  lemma AddMinutesCarry(t: Clock, delta: int)
    requires ValidClock(t)
    ensures AddMinutes(t, delta).minute == (t.minute + delta) % 60
    ensures AddMinutes(t, delta).hour == (t.hour + (t.minute + delta) / 60) % 24
  {
    var r := AddMinutes(t, delta);
    var c := Clock((t.hour + (t.minute + delta) / 60) % 24, (t.minute + delta) % 60);
    CarryIsModular(t.hour, t.minute + delta, (t.minute + delta) / 60, (t.minute + delta) % 60);
    MinuteOfDayInjective(r, c);
  }

  lemma CarryIsModular(h: int, total: int, carry: int, m: int)
    requires carry == total / 60 && m == total % 60
    ensures ((h + carry) % 24) * 60 + m == (h * 60 + total) % 1440
  {
    var q := (h + carry) / 24;
    assert h + carry == 24 * q + (h + carry) % 24;
    assert total == 60 * carry + m;
    assert h * 60 + total == 1440 * q + (((h + carry) % 24) * 60 + m);
  }

  /** Two valid clocks with the same minute of the day are equal. */
  lemma MinuteOfDayInjective(a: Clock, b: Clock)
    requires ValidClock(a) && ValidClock(b)
    requires MinuteOfDay(a) == MinuteOfDay(b)
    ensures a == b
  {
  }

  /** `addMinutes` is addition modulo a day on the minute of the day. */
  lemma AddMinutesModular(t: Clock, delta: int)
    requires ValidClock(t)
    ensures MinuteOfDay(AddMinutes(t, delta)) == (MinuteOfDay(t) + delta) % MinutesPerDay
  {
  }

  /** Adding and then subtracting the same number of minutes returns to the start. */
  lemma AddMinutesRoundTrip(t: Clock, delta: int)
    requires ValidClock(t)
    ensures AddMinutes(AddMinutes(t, delta), -delta) == t
  {
    var u := AddMinutes(t, delta);
    AddMinutesModular(t, delta);
    AddMinutesModular(u, -delta);
    RoundTripOnMinutes(t, u, AddMinutes(u, -delta), delta);
  }

  lemma RoundTripOnMinutes(t: Clock, u: Clock, v: Clock, delta: int)
    requires ValidClock(t) && ValidClock(u) && ValidClock(v)
    requires MinuteOfDay(u) == (MinuteOfDay(t) + delta) % MinutesPerDay
    requires MinuteOfDay(v) == (MinuteOfDay(u) - delta) % MinutesPerDay
    ensures v == t
  {
    ModRoundTrip(MinuteOfDay(t), delta);
    MinuteOfDayInjective(v, t);
  }

  lemma ModRoundTrip(x: int, d: int)
    requires 0 <= x < 1440
    ensures ((x + d) % 1440 - d) % 1440 == x
  {
    var q := (x + d) / 1440;
    assert (x + d) % 1440 - d == x - 1440 * q;
    ModShift(x, q);
  }

  lemma ModShift(x: int, k: int)
    requires 0 <= x < 1440
    ensures (x - 1440 * k) % 1440 == x
  {
  }

  lemma AddMinutesCase(t: Clock, delta: int, m: int, expected: Clock)
    requires ValidClock(t) && ValidClock(expected)
    requires m == (MinuteOfDay(t) + delta) % MinutesPerDay && MinuteOfDay(expected) == m
    ensures AddMinutes(t, delta) == expected
  {
    AddMinutesModular(t, delta);
    MinuteOfDayInjective(AddMinutes(t, delta), expected);
  }

  /** The cases of the `addMinutes` unit tests. */
  lemma AddMinutesExamples()
    ensures AddMinutes(Clock(4, 20), 5) == Clock(4, 25)
    ensures AddMinutes(Clock(4, 20), 1260) == Clock(1, 20)
    ensures AddMinutes(Clock(4, 20), 55) == Clock(5, 15)
    ensures AddMinutes(Clock(4, 20), 1315) == Clock(2, 15)
    ensures AddMinutes(Clock(4, 20), -5) == Clock(4, 15)
    ensures AddMinutes(Clock(4, 20), -300) == Clock(23, 20)
    ensures AddMinutes(Clock(4, 20), -25) == Clock(3, 55)
    ensures AddMinutes(Clock(4, 20), -325) == Clock(22, 55)
  {
    var t := Clock(4, 20);
    assert MinuteOfDay(t) == 260;
    AddMinutesCase(t, 5, 265, Clock(4, 25));
    AddMinutesCase(t, 1260, 80, Clock(1, 20));
    AddMinutesCase(t, 55, 315, Clock(5, 15));
    AddMinutesCase(t, 1315, 135, Clock(2, 15));
    AddMinutesCase(t, -5, 255, Clock(4, 15));
    AddMinutesCase(t, -300, 1400, Clock(23, 20));
    AddMinutesCase(t, -25, 235, Clock(3, 55));
    AddMinutesCase(t, -325, 1375, Clock(22, 55));
  }

  /**
   * `stringifyNormalizedTime(hour24)`: the pair (24-hour text, 12-hour text) of a whole hour,
   * such as ("17:00", "05:00pm").
   */
  function StringifyNormalizedTime(hour24: int): (string, string)
  {
    var hour12 := if hour24 > 12 then hour24 - 12 else hour24;
    var suffix12 := if hour24 >= 12 then "pm" else "am";
    (PadStart(IntToString(hour24), 2, '0') + ":00", PadStart(IntToString(hour12), 2, '0') + ":00" + suffix12)
  }

  /** The 24-hour text is the hour in two digits then ":00", and reads back as the hour. */
  lemma Stringify24Hour(hour24: int)
    requires 0 <= hour24 < 100
    ensures var s := StringifyNormalizedTime(hour24).0;
      |s| == 5 && s[2..] == ":00" && AllDigits(s[..2]) && DigitsValue(s[..2]) == hour24
  {
    PadStart2Value(hour24);
    var p := PadStart(NatToString(hour24), 2, '0');
    assert (p + ":00")[..2] == p;
  }

  /**
   * The 12-hour text ends in "pm" exactly when the hour is 12 or more (else "am"), and its
   * two-digit hour is the 24-hour hour less 12 only when that hour is above 12.
   */
  lemma Stringify12Hour(hour24: int)
    requires 0 <= hour24 < 100
    ensures var s := StringifyNormalizedTime(hour24).1;
      |s| == 7 && s[2..5] == ":00"
      && (s[5..] == "pm" <==> hour24 >= 12)
      && (s[5..] == "am" <==> hour24 < 12)
      && AllDigits(s[..2])
      && DigitsValue(s[..2]) == (if hour24 > 12 then hour24 - 12 else hour24)
  {
    var hour12 := if hour24 > 12 then hour24 - 12 else hour24;
    PadStart2Value(hour12);
    var suffix := if hour24 >= 12 then "pm" else "am";
    TwelveHourParts(PadStart(NatToString(hour12), 2, '0'), suffix);
  }

  lemma TwelveHourParts(p: string, suffix: string)
    requires |p| == 2 && |suffix| == 2
    ensures var s := p + ":00" + suffix; |s| == 7 && s[..2] == p && s[2..5] == ":00" && s[5..] == suffix
  {
  }

  lemma DigitsInjective2(a: string, b: string)
    requires |a| == 2 && |b| == 2 && AllDigits(a) && AllDigits(b) && DigitsValue(a) == DigitsValue(b)
    ensures a == b
  {
    TwoDigitsValue(a);
    TwoDigitsValue(b);
    TwoDigitsArith(DigitValue(a[0]), DigitValue(a[1]), DigitValue(b[0]), DigitValue(b[1]));
    assert DigitChar(DigitValue(a[0])) == a[0] && DigitChar(DigitValue(b[0])) == b[0];
    assert DigitChar(DigitValue(a[1])) == a[1] && DigitChar(DigitValue(b[1])) == b[1];
  }

  lemma TwoDigitsArith(a0: nat, a1: nat, b0: nat, b1: nat)
    requires a0 < 10 && a1 < 10 && b0 < 10 && b1 < 10
    requires 10 * a0 + a1 == 10 * b0 + b1
    ensures a0 == b0 && a1 == b1
  {
  }

  lemma TwoDigitsValue(s: string)
    requires |s| == 2 && AllDigits(s)
    ensures DigitsValue(s) == 10 * DigitValue(s[0]) + DigitValue(s[1])
  {
    var init := s[..1];
    assert init == [s[0]];
    assert init[..0] == [];
    assert DigitsValue(init) == DigitValue(s[0]);
  }

  /** The edge cases of the 12-hour rendering: noon, midnight as 0, and 24. */
  lemma StringifyExamples()
    ensures StringifyNormalizedTime(12) == ("12:00", "12:00pm")
    ensures StringifyNormalizedTime(0) == ("00:00", "00:00am")
    ensures StringifyNormalizedTime(24) == ("24:00", "12:00pm")
    ensures StringifyNormalizedTime(17) == ("17:00", "05:00pm")
  {
    StringifyNoon();
    StringifyMidnight();
    StringifyTwentyFour();
    StringifySeventeen();
  }

  lemma StringifyNoon()
    ensures StringifyNormalizedTime(12) == ("12:00", "12:00pm")
  {
    TwoDigitText(1, 2);
    var p := PadStart(IntToString(12), 2, '0');
    assert p == "12";
    assert p + ":00" == "12:00" && p + ":00" + "pm" == "12:00pm";
    assert StringifyNormalizedTime(12) == (p + ":00", p + ":00" + "pm");
  }

  lemma StringifyMidnight()
    ensures StringifyNormalizedTime(0) == ("00:00", "00:00am")
  {
    OneDigitText(0);
    var p := PadStart(IntToString(0), 2, '0');
    assert p == "00";
    assert p + ":00" == "00:00" && p + ":00" + "am" == "00:00am";
    assert StringifyNormalizedTime(0) == (p + ":00", p + ":00" + "am");
  }

  lemma StringifyTwentyFour()
    ensures StringifyNormalizedTime(24) == ("24:00", "12:00pm")
  {
    var p := PadStart(IntToString(24), 2, '0');
    var q := PadStart(IntToString(12), 2, '0');
    assert p == "24" by { TwoDigitText(2, 4); }
    assert q == "12" by { TwoDigitText(1, 2); }
    assert p + ":00" == "24:00" && q + ":00" + "pm" == "12:00pm";
    assert StringifyNormalizedTime(24) == (p + ":00", q + ":00" + "pm");
  }

  lemma StringifySeventeen()
    ensures StringifyNormalizedTime(17) == ("17:00", "05:00pm")
  {
    TwoDigitText(1, 7);
    OneDigitText(5);
    var p := PadStart(IntToString(17), 2, '0');
    var q := PadStart(IntToString(5), 2, '0');
    assert p == "17" && q == "05";
    assert p + ":00" == "17:00" && q + ":00" + "pm" == "05:00pm";
    assert StringifyNormalizedTime(17) == (p + ":00", q + ":00" + "pm");
  }

  lemma TwoDigitText(d0: nat, d1: nat)
    requires 1 <= d0 < 10 && d1 < 10
    ensures PadStart(IntToString(10 * d0 + d1), 2, '0') == [DigitChar(d0), DigitChar(d1)]
  {
    var n := 10 * d0 + d1;
    assert n / 10 == d0 && n % 10 == d1;
    assert NatToString(n) == NatToString(d0) + [DigitChar(d1)];
  }

  lemma OneDigitText(d: nat)
    requires d < 10
    ensures PadStart(IntToString(d), 2, '0') == ['0', DigitChar(d)]
  {
    assert seq(1, _ => '0') == ['0'];
  }

  lemma DigitsValueAt(s: string, d0: nat, d1: nat)
    requires d0 < 10 && d1 < 10 && s == [DigitChar(d0), DigitChar(d1)]
    ensures AllDigits(s) && DigitsValue(s) == 10 * d0 + d1
  {
    TwoDigitsValue(s);
  }
}
