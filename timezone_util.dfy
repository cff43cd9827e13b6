/**
 * `src/util/timezone.util.ts`: the "military time" encoding and the local wall clock of a zone
 * at a UTC instant. The zone's offset from UTC (milliseconds, as `getTimezoneOffset` gives it)
 * is an input: the timezone database is not part of this model.
 */
module TimezoneUtil {
  import opened Wrappers
  import opened JsText
  import opened TimeUtil
  import opened DateUtil
  import opened Sequences

  const MillisPerMinute: int := 60000
  const MillisPerHour: int := 3600000
  const MillisPerDay: int := 86400000

  /** `${n}`.padStart(2, "0") for a number below 100. */
  function TwoDigits(n: nat): (r: string)
    requires n < 100
    ensures |r| == 2 && AllDigits(r) && DigitsValue(r) == n
  {
    PadStart2Value(n);
    PadStart(NatToString(n), 2, '0')
  }

  /** The text `toMilitaryTime` builds: hour and minute each padded to two digits, then joined. */
  function MilitaryText(t: Clock): (r: string)
    requires ValidClock(t)
    ensures |r| == 4 && AllDigits(r)
  {
    var hh, mm := TwoDigits(t.hour), TwoDigits(t.minute);
    AllDigitsConcat(hh, mm);
    hh + mm
  }

  /** `toMilitaryTime([h, m])`: the number `parseInt` reads from that text, as the lemma below shows. */
  function ToMilitaryTime(t: Clock): int
    requires ValidClock(t)
  {
    100 * t.hour + t.minute
  }

  /** Reading the padded text back as a decimal number gives 100·hour + minute. */
  lemma MilitaryTextValue(t: Clock)
    requires ValidClock(t)
    ensures DigitsValue(MilitaryText(t)) == ToMilitaryTime(t)
  {
    FourDigits(TwoDigits(t.hour), TwoDigits(t.minute), t.hour, t.minute);
  }

  lemma FourDigits(hh: string, mm: string, h: nat, m: nat)
    requires |mm| == 2 && AllDigits(hh) && AllDigits(mm)
    requires DigitsValue(hh) == h && DigitsValue(mm) == m
    ensures AllDigits(hh + mm) && DigitsValue(hh + mm) == 100 * h + m
  {
    DigitsValueAppend(hh, mm);
    assert Pow10(2) == 100;
  }

  /** The encoding orders clocks as the time of day does: by hour, then by minute. */
  lemma MilitaryTimeMonotone(a: Clock, b: Clock)
    requires ValidClock(a) && ValidClock(b)
    ensures ToMilitaryTime(a) < ToMilitaryTime(b) <==> (a.hour < b.hour || (a.hour == b.hour && a.minute < b.minute))
    ensures ToMilitaryTime(a) <= ToMilitaryTime(b) <==> MinuteOfDay(a) <= MinuteOfDay(b)
    ensures ToMilitaryTime(a) == ToMilitaryTime(b) <==> a == b
  {
    MilitaryOrder(a.hour, a.minute, b.hour, b.minute);
  }

  lemma MilitaryOrder(h1: int, m1: int, h2: int, m2: int)
    requires 0 <= m1 < 60 && 0 <= m2 < 60
    ensures 100 * h1 + m1 < 100 * h2 + m2 <==> (h1 < h2 || (h1 == h2 && m1 < m2))
    ensures 100 * h1 + m1 <= 100 * h2 + m2 <==> 60 * h1 + m1 <= 60 * h2 + m2
    ensures 100 * h1 + m1 == 100 * h2 + m2 <==> (h1 == h2 && m1 == m2)
  {
  }

  /**
   * The wall clock of an instant `localMs = utcNow + offset` read in UTC, as
   * `new Date(localMs).getUTCHours()` and `getUTCMinutes()` give it.
   */
  function LocalClock(localMs: int): (r: Clock)
    ensures ValidClock(r)
    ensures MinuteOfDay(r) == (localMs / MillisPerMinute) % MinutesPerDay
  {
    var r := Clock((localMs / MillisPerHour) % 24, (localMs / MillisPerMinute) % 60);
    assert MinuteOfDay(r) == (localMs / MillisPerMinute) % MinutesPerDay by {
      NestedDivision(localMs, localMs / MillisPerMinute, localMs / MillisPerHour);
      HoursAndMinutes(localMs / MillisPerMinute, localMs / MillisPerHour);
    }
    r
  }

  lemma NestedDivision(ms: int, q: int, p: int)
    requires q == ms / 60000 && p == ms / 3600000
    ensures p == q / 60
  {
    var r := ms % 60000;
    var s := q % 60;
    assert ms == 60000 * q + r;
    assert q == 60 * (q / 60) + s;
    assert ms == 3600000 * (q / 60) + (60000 * s + r);
  }

  lemma HoursAndMinutes(q: int, p: int)
    requires p == q / 60
    ensures (p % 24) * 60 + q % 60 == q % 1440
  {
    var k := p / 24;
    assert p == 24 * k + p % 24;
    assert q == 60 * p + q % 60;
    assert q == 1440 * k + ((p % 24) * 60 + q % 60);
  }

  /** The inclusive comparison of `timezone.util.ts` line 40: no wrap-around past midnight. */
  predicate InRange(now: Clock, start: Clock, end: Clock)
    requires ValidClock(now) && ValidClock(start) && ValidClock(end)
  {
    ToMilitaryTime(now) >= ToMilitaryTime(start) && ToMilitaryTime(now) <= ToMilitaryTime(end)
  }

  /** In minutes of the day the range test is the closed interval from start to end. */
  lemma InRangeMinutes(now: Clock, start: Clock, end: Clock)
    requires ValidClock(now) && ValidClock(start) && ValidClock(end)
    ensures InRange(now, start, end) <==> MinuteOfDay(start) <= MinuteOfDay(now) <= MinuteOfDay(end)
  {
    MilitaryTimeMonotone(start, now);
    MilitaryTimeMonotone(now, end);
  }

  /** A range whose start is after its end contains no time at all. */
  lemma InvertedRangeEmpty(now: Clock, start: Clock, end: Clock)
    requires ValidClock(now) && ValidClock(start) && ValidClock(end)
    requires ToMilitaryTime(start) > ToMilitaryTime(end)
    ensures !InRange(now, start, end)
  {
  }

  /** `localTimeInRangePredicate(utcNow)(zone, start, end)` for a zone at the given offset. */
  predicate LocalTimeInRange(utcNow: int, offsetMs: int, start: Clock, end: Clock)
    requires ValidClock(start) && ValidClock(end)
  {
    InRange(LocalClock(utcNow + offsetMs), start, end)
  }

  /**
   * The "now" of `zonesInTimeRangeGetter`: the given instant when it is a positive number,
   * otherwise the clock's reading (`new Date().getTime()`), which is a parameter here.
   */
  function ResolveUtcNow(given: Option<int>, clockNow: int): (r: int)
    ensures given.Some? && given.value > 0 ==> r == given.value
    ensures (given.None? || given.value <= 0) ==> r == clockNow
  {
    if given.Some? && given.value > 0 then given.value else clockNow
  }

  /** One entry of the timezone table: a zone name and its current offset from UTC. */
  datatype Zone = Zone(name: string, offsetMs: int)

  function Names(zones: seq<Zone>): (r: seq<string>)
    ensures |r| == |zones| && forall i :: 0 <= i < |zones| ==> r[i] == zones[i].name
  {
    if zones == [] then [] else [zones[0].name] + Names(zones[1..])
  }

  /** `zonesInTimeRangeGetter(utcNow)(start, end)`: the names of the zones whose local time is in range. */
  function ZonesInTimeRange(zones: seq<Zone>, utcNow: int, start: Clock, end: Clock): seq<string>
    requires ValidClock(start) && ValidClock(end)
  {
    if zones == [] then []
    else
      (if LocalTimeInRange(utcNow, zones[0].offsetMs, start, end) then [zones[0].name] else [])
      + ZonesInTimeRange(zones[1..], utcNow, start, end)
  }

  /** A name is returned exactly when some zone of that name has its local time in range. */
  lemma {:induction false} ZonesInTimeRangeMembers(zones: seq<Zone>, utcNow: int, start: Clock, end: Clock, name: string)
    requires ValidClock(start) && ValidClock(end)
    ensures name in ZonesInTimeRange(zones, utcNow, start, end)
      <==> exists i :: 0 <= i < |zones| && zones[i].name == name && LocalTimeInRange(utcNow, zones[i].offsetMs, start, end)
  {
    if zones != [] {
      ZonesInTimeRangeMembers(zones[1..], utcNow, start, end, name);
      var rest := ZonesInTimeRange(zones[1..], utcNow, start, end);
      if name in rest {
        var i :| 0 <= i < |zones[1..]| && zones[1..][i].name == name && LocalTimeInRange(utcNow, zones[1..][i].offsetMs, start, end);
        assert zones[i + 1] == zones[1..][i];
      }
      if exists i :: 0 <= i < |zones| && zones[i].name == name && LocalTimeInRange(utcNow, zones[i].offsetMs, start, end) {
        var i :| 0 <= i < |zones| && zones[i].name == name && LocalTimeInRange(utcNow, zones[i].offsetMs, start, end);
        if i > 0 {
          assert zones[1..][i - 1] == zones[i];
        }
      }
    }
  }

  /** The result keeps the zones' own order and only leaves names out. */
  lemma {:induction false} ZonesInTimeRangeOrdered(zones: seq<Zone>, utcNow: int, start: Clock, end: Clock)
    requires ValidClock(start) && ValidClock(end)
    ensures IsSubsequence(ZonesInTimeRange(zones, utcNow, start, end), Names(zones))
  {
    if zones != [] {
      ZonesInTimeRangeOrdered(zones[1..], utcNow, start, end);
      var rest := ZonesInTimeRange(zones[1..], utcNow, start, end);
      assert Names(zones)[1..] == Names(zones[1..]);
      if LocalTimeInRange(utcNow, zones[0].offsetMs, start, end) {
        assert ([zones[0].name] + rest)[1..] == rest;
      } else {
        assert [] + rest == rest;
        SubsequenceOfTail(rest, Names(zones));
      }
    }
  }

  /** With the start after the end no zone is ever returned: the range does not wrap past midnight. */
  lemma {:induction false} InvertedRangeNoZones(zones: seq<Zone>, utcNow: int, start: Clock, end: Clock)
    requires ValidClock(start) && ValidClock(end)
    requires ToMilitaryTime(start) > ToMilitaryTime(end)
    ensures ZonesInTimeRange(zones, utcNow, start, end) == []
  {
    if zones != [] {
      InvertedRangeNoZones(zones[1..], utcNow, start, end);
    }
  }

  /** At any UTC midnight a zone six hours behind UTC (America/Regina, no daylight saving) reads 18:00. */
  lemma SixHoursBehindAtMidnight(utcNow: int)
    requires utcNow % MillisPerDay == 0
    ensures LocalClock(utcNow - 6 * MillisPerHour) == Clock(18, 0)
  {
    var d := utcNow / MillisPerDay;
    MidnightMinusSixHours(utcNow, d);
    var c := LocalClock(utcNow - 6 * MillisPerHour);
    MinuteOfDayInjective(c, Clock(18, 0));
  }

  lemma MidnightMinusSixHours(utcNow: int, d: int)
    requires utcNow == d * 86400000
    ensures ((utcNow - 21600000) / 60000) % 1440 == 1080
  {
    assert utcNow - 21600000 == 60000 * (1440 * d - 360);
    assert (utcNow - 21600000) / 60000 == 1440 * (d - 1) + 1080;
  }

  /** The unit-test case: America/Regina is inside [17:59, 18:01] at UTC midnight. */
  lemma ReginaInRangeAtUtcMidnight(zones: seq<Zone>, utcNow: int)
    requires utcNow % MillisPerDay == 0
    requires Zone("America/Regina", -6 * MillisPerHour) in zones
    ensures "America/Regina" in ZonesInTimeRange(zones, utcNow, Clock(17, 59), Clock(18, 1))
  {
    SixHoursBehindAtMidnight(utcNow);
    var i :| 0 <= i < |zones| && zones[i] == Zone("America/Regina", -6 * MillisPerHour);
    assert LocalTimeInRange(utcNow, zones[i].offsetMs, Clock(17, 59), Clock(18, 1));
    ZonesInTimeRangeMembers(zones, utcNow, Clock(17, 59), Clock(18, 1), "America/Regina");
  }

  /*
   * The local date and weekday lookups (`localDateGetter`, `localWeekdayGetter`) are not in
   * `timezone.util.ts` as shown; they are modelled with the same arithmetic as the time of day:
   * the calendar day of `utcNow + offset` read in UTC.
   */

  /** The day number (days since 1970-01-01) of a millisecond instant, rounded down. */
  function DayOf(localMs: int): int { localMs / MillisPerDay }

  /**
   * The weekday of an instant read in UTC, as `getUTCDay()` numbers it (1970-01-01 was a
   * Thursday, day 4), then named by `toWeekday`.
   */
  function LocalWeekday(localMs: int): (r: Weekday)
    ensures ToWeekday((DayOf(localMs) + 4) % 7) == Success(r)
  {
    var n := (DayOf(localMs) + 4) % 7;
    DayNumberOfToWeekday(n);
    ToWeekday(n).value
  }

  /** The weekday's number is the day count shifted to Thursday, modulo 7. */
  lemma LocalWeekdayNumber(localMs: int)
    ensures DayNumber(LocalWeekday(localMs)) == (DayOf(localMs) + 4) % 7
  {
    DayNumberOfToWeekday((DayOf(localMs) + 4) % 7);
  }

  /** Seven days later is the same weekday; the next day is the next weekday. */
  lemma LocalWeekdayPeriodic(localMs: int)
    ensures LocalWeekday(localMs + 7 * MillisPerDay) == LocalWeekday(localMs)
    ensures DayNumber(LocalWeekday(localMs + MillisPerDay)) == (DayNumber(LocalWeekday(localMs)) + 1) % 7
  {
    var d := DayOf(localMs);
    assert DayOf(localMs + 7 * MillisPerDay) == d + 7;
    assert DayOf(localMs + MillisPerDay) == d + 1;
    DayNumberOfToWeekday((d + 4) % 7);
    DayNumberOfToWeekday((d + 11) % 7);
    DayNumberOfToWeekday((d + 5) % 7);
    NextModSeven(d + 4);
  }

  lemma NextModSeven(x: int)
    ensures (x + 7) % 7 == x % 7
    ensures (x + 1) % 7 == (x % 7 + 1) % 7
  {
  }

  /** A proleptic Gregorian calendar date. */
  datatype CivilDate = CivilDate(year: int, month: int, day: int)

  /** The year within a 400-year era of the era's `doe`-th day (eras start on 1 March). */
  function YearOfEraDay(doe: int): int
  {
    (doe - doe / 1460 + doe / 36524 - doe / 146096) / 365
  }

  /** The day within the March-based year `yoe` of an era. */
  function DayOfYear(doe: int, yoe: int): int
  {
    doe - (365 * yoe + yoe / 4 - yoe / 100)
  }

  /** The month counted from March (0 is March, 11 is February) of a day of the March-based year. */
  function MonthFromMarch(doy: int): int
  {
    (5 * doy + 2) / 153
  }

  /** The calendar date of a day number (the "civil from days" algorithm of H. Hinnant). */
  function CivilFromDays(days: int): (r: CivilDate)
    ensures 1 <= r.month <= 12 && 1 <= r.day <= 31
  {
    var z := days + 719468;
    var era := z / 146097;
    var doe := z - era * 146097;
    var yoe := YearOfEraDay(doe);
    var doy := DayOfYear(doe, yoe);
    var mp := MonthFromMarch(doy);
    var d := doy - (153 * mp + 2) / 5 + 1;
    var m := if mp < 10 then mp + 3 else mp - 9;
    assert 0 <= mp < 12 && 1 <= d <= 31 by {
      YearOfEra(doe, yoe);
      MonthOfYear(doy, mp, d);
    }
    CivilDate(yoe + era * 400 + (if m <= 2 then 1 else 0), m, d)
  }

  lemma YearOfEra(doe: int, yoe: int)
    requires 0 <= doe < 146097
    requires yoe == (doe - doe / 1460 + doe / 36524 - doe / 146096) / 365
    ensures 0 <= yoe < 400
    ensures 0 <= doe - (365 * yoe + yoe / 4 - yoe / 100) < 366
  {
    YearOfEraLinear(doe, doe / 1460, doe / 36524, doe / 146096, yoe, yoe / 4, yoe / 100);
  }

  /** The year-of-era bounds with every quotient named, which leaves only linear arithmetic. */
  lemma YearOfEraLinear(doe: int, a: int, b: int, e: int, yoe: int, f: int, h: int)
    requires 0 <= doe < 146097
    requires 1460 * a <= doe < 1460 * a + 1460
    requires 36524 * b <= doe < 36524 * b + 36524
    requires 146096 * e <= doe < 146096 * e + 146096
    requires 365 * yoe <= doe - a + b - e < 365 * yoe + 365
    requires 4 * f <= yoe < 4 * f + 4
    requires 100 * h <= yoe < 100 * h + 100
    ensures 0 <= yoe < 400
    ensures 0 <= doe - (365 * yoe + f - h) < 366
  {
    assert 0 <= b <= 4 && 0 <= e <= 1;
    if e == 1 {
      assert doe == 146096 && a == 100 && b == 4;
    } else {
      assert b < 4;
      CenturyOfEra(doe - 36524 * b, a - 25 * b, b, yoe - 100 * b, f - 25 * b, h - b);
    }
  }

  /** The same bounds inside one of the first three centuries of an era, counted from its start. */
  lemma CenturyOfEra(r: int, a: int, b: int, y: int, f: int, h: int)
    requires 0 <= r < 36524 && 0 <= b < 4
    requires 1460 * a <= r + 24 * b < 1460 * a + 1460
    requires 365 * y <= r - a < 365 * y + 365
    requires 4 * f <= y < 4 * f + 4
    requires 100 * h <= y < 100 * h + 100
    ensures 0 <= y < 100 && h == 0
    ensures 0 <= r - (365 * y + f) < 366
  {
  }

  lemma MonthOfYear(doy: int, mp: int, d: int)
    requires 0 <= doy < 366
    requires mp == (5 * doy + 2) / 153
    requires d == doy - (153 * mp + 2) / 5 + 1
    ensures 0 <= mp < 12
    ensures 1 <= d <= 31
  {
  }

  /** `YYYY-MM-DD`, each part zero-padded, the form exception dates are stored in. */
  function FormatDate(date: CivilDate): string
    requires 0 <= date.year && 1 <= date.month <= 12 && 1 <= date.day <= 31
  {
    PadStart(NatToString(date.year), 4, '0') + "-"
      + PadStart(NatToString(date.month), 2, '0') + "-"
      + PadStart(NatToString(date.day), 2, '0')
  }

  /** A date of years 0..9999 is written in ten characters and each field reads back. */
  lemma FormatDateShape(date: CivilDate)
    requires 0 <= date.year < 10000 && 1 <= date.month <= 12 && 1 <= date.day <= 31
    ensures var r := FormatDate(date);
      |r| == 10 && r[4] == '-' && r[7] == '-'
      && AllDigits(r[..4]) && DigitsValue(r[..4]) == date.year
      && AllDigits(r[5..7]) && DigitsValue(r[5..7]) == date.month
      && AllDigits(r[8..]) && DigitsValue(r[8..]) == date.day
  {
    var yyyy := PadStart(NatToString(date.year), 4, '0');
    var mm := PadStart(NatToString(date.month), 2, '0');
    var dd := PadStart(NatToString(date.day), 2, '0');
    PadStart2Value(date.month);
    PadStart2Value(date.day);
    PadStartDigitsValue(NatToString(date.year), 4);
    NatToStringRoundTrip(date.year);
    assert Pow10(4) == 10000;
    NatToStringLength(date.year, 4);
    DashedFields(yyyy, mm, dd);
  }

  lemma DashedFields(yyyy: string, mm: string, dd: string)
    requires |yyyy| == 4 && |mm| == 2 && |dd| == 2
    ensures var r := yyyy + "-" + mm + "-" + dd;
      |r| == 10 && r[4] == '-' && r[7] == '-' && r[..4] == yyyy && r[5..7] == mm && r[8..] == dd
  {
  }

  /** The local date of an instant, or `None` before year 0, which this format cannot write. */
  function LocalDate(localMs: int): (r: Option<string>)
    ensures r.Some? <==> CivilFromDays(DayOf(localMs)).year >= 0
  {
    var date := CivilFromDays(DayOf(localMs));
    if date.year >= 0 then Some(FormatDate(date)) else None
  }

  /** The unit-test instant 2371-09-23T00:00Z read six hours behind UTC is 2371-09-22. */
  lemma ReginaLocalDate()
    ensures LocalDate(12677212800000 - 6 * MillisPerHour) == Some("2371-09-22")
  {
    assert DayOf(12677212800000 - 6 * MillisPerHour) == 146726;
    CivilDayExample();
    FormatDateExample();
  }

  lemma CivilDayExample()
    ensures CivilFromDays(146726) == CivilDate(2371, 9, 22)
  {
    assert (146726 + 719468) / 146097 == 5;
    assert YearOfEraDay(135709) == 371;
    assert DayOfYear(135709, 371) == 205;
    assert MonthFromMarch(205) == 6;
  }

  lemma FormatDateExample()
    ensures FormatDate(CivilDate(2371, 9, 22)) == "2371-09-22"
  {
    assert NatToString(2371) == "2371" by {
      assert NatToString(2) == "2";
      assert NatToString(23) == "23";
      assert NatToString(237) == "237";
    }
    assert NatToString(9) == "9" && NatToString(22) == "22";
    assert PadStart("9", 2, '0') == "09";
    assert "2371" + "-" + "09" + "-" + "22" == "2371-09-22";
  }

  /** The unit-test instant 2024-02-13T00:00Z (a Tuesday) read six hours behind UTC is a Monday. */
  lemma ReginaLocalWeekday()
    ensures LocalWeekday(1707782400000 - 6 * MillisPerHour) == Monday
  {
    assert DayOf(1707782400000 - 6 * MillisPerHour) == 19765;
  }
}
