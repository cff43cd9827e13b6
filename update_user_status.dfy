/**
 * The status-update job of `src/functions/job/update-user-status.ts`: the guard chain over the
 * stored user record, then the schedule decision. The job only logs what it would do, so its
 * result is the decision (with the reason when nothing is changed), not a call to Slack.
 */
module UpdateUserStatus {
  import opened Wrappers
  import opened TimeUtil
  import opened DateUtil
  import opened TimezoneUtil

  /** The stored schedule, the record shape of `schedule.cmd.ts`, with its times already parsed. */
  datatype UserSchedule = UserSchedule(
    timeAuto: Clock,
    timeAway: Clock,
    disableSaturdaySchedule: bool,
    differentSaturdaySchedule: bool,
    saturdayTimeAuto: Clock,
    saturdayTimeAway: Clock,
    disableSundaySchedule: bool,
    differentSundaySchedule: bool,
    sundayTimeAuto: Clock,
    sundayTimeAway: Clock,
    exceptionDates: seq<string>,
    pauseUpdates: bool)

  predicate ValidSchedule(s: UserSchedule)
  {
    ValidClock(s.timeAuto) && ValidClock(s.timeAway)
    && ValidClock(s.saturdayTimeAuto) && ValidClock(s.saturdayTimeAway)
    && ValidClock(s.sundayTimeAuto) && ValidClock(s.sundayTimeAway)
  }

  /** The schedule offered to a user who has none yet: 09:00–17:00, weekends 10–16 and 11–15. */
  function DefaultSchedule(): (s: UserSchedule)
    ensures ValidSchedule(s) && !s.pauseUpdates && s.exceptionDates == []
    ensures !s.disableSaturdaySchedule && !s.differentSaturdaySchedule
    ensures !s.disableSundaySchedule && !s.differentSundaySchedule
  {
    UserSchedule(Clock(9, 0), Clock(17, 0), false, false, Clock(10, 0), Clock(16, 0),
                 false, false, Clock(11, 0), Clock(15, 0), [], false)
  }

  /** Why the job leaves the status alone. */
  datatype Reason =
    | ReadError | MissingUserData | MissingAuthToken | MissingTimezone | MissingSchedule
    | Paused | DateExcluded | SaturdayDisabled | SundayDisabled | OutsideWindows

  datatype Outcome = SetAuto | SetAway | NoUpdate(reason: Reason)

  /** Minutes either side of a scheduled time within which the job acts. */
  const Tolerance: int := 10

  /** The scheduled times for the day: a weekend's own times only when that day's override is on. */
  function ActiveTimes(s: UserSchedule, weekday: Weekday): (Clock, Clock)
  {
    if weekday == Saturday && s.differentSaturdaySchedule then (s.saturdayTimeAuto, s.saturdayTimeAway)
    else if weekday == Sunday && s.differentSundaySchedule then (s.sundayTimeAuto, s.sundayTimeAway)
    else (s.timeAuto, s.timeAway)
  }

  /** The inclusive window `[t - 10, t + 10]`, built with `addMinutes` and tested without wrap-around. */
  predicate InWindow(now: Clock, t: Clock)
    requires ValidClock(now) && ValidClock(t)
  {
    InRange(now, AddMinutes(t, -Tolerance), AddMinutes(t, Tolerance))
  }

  /**
   * The decision for a user with a schedule, given the local date (`None` when it has no
   * `YYYY-MM-DD` form), the local weekday and the local time.
   */
  function Evaluate(s: UserSchedule, localDate: Option<string>, weekday: Weekday, now: Clock): (r: Outcome)
    requires ValidSchedule(s) && ValidClock(now)
    ensures s.pauseUpdates ==> r == NoUpdate(Paused)
    ensures !s.pauseUpdates && localDate.Some? && localDate.value in s.exceptionDates ==> r == NoUpdate(DateExcluded)
    ensures r.SetAuto? || r.SetAway? ==>
      !s.pauseUpdates && !(localDate.Some? && localDate.value in s.exceptionDates)
      && !(weekday == Saturday && s.disableSaturdaySchedule) && !(weekday == Sunday && s.disableSundaySchedule)
    ensures r.NoUpdate? ==> r.reason in {Paused, DateExcluded, SaturdayDisabled, SundayDisabled, OutsideWindows}
  {
    if s.pauseUpdates then NoUpdate(Paused)
    else if localDate.Some? && localDate.value in s.exceptionDates then NoUpdate(DateExcluded)
    else if weekday == Saturday && s.disableSaturdaySchedule then NoUpdate(SaturdayDisabled)
    else if weekday == Sunday && s.disableSundaySchedule then NoUpdate(SundayDisabled)
    else
      var (auto, away) := ActiveTimes(s, weekday);
      if InWindow(now, auto) then SetAuto
      else if InWindow(now, away) then SetAway
      else NoUpdate(OutsideWindows)
  }

  /** A disabled weekend day is never acted on, even when its override times are switched on. */
  lemma DisabledWeekendWins(s: UserSchedule, localDate: Option<string>, weekday: Weekday, now: Clock)
    requires ValidSchedule(s) && ValidClock(now)
    requires !s.pauseUpdates && !(localDate.Some? && localDate.value in s.exceptionDates)
    ensures weekday == Saturday && s.disableSaturdaySchedule ==> Evaluate(s, localDate, weekday, now) == NoUpdate(SaturdayDisabled)
    ensures weekday == Sunday && s.disableSundaySchedule ==> Evaluate(s, localDate, weekday, now) == NoUpdate(SundayDisabled)
  {
  }

  /** Monday to Friday always use the default times; a weekend day uses its own only when asked to. */
  lemma ActiveTimesChoice(s: UserSchedule, weekday: Weekday)
    ensures weekday != Saturday && weekday != Sunday ==> ActiveTimes(s, weekday) == (s.timeAuto, s.timeAway)
    ensures weekday == Saturday ==>
      ActiveTimes(s, weekday) == if s.differentSaturdaySchedule then (s.saturdayTimeAuto, s.saturdayTimeAway) else (s.timeAuto, s.timeAway)
    ensures weekday == Sunday ==>
      ActiveTimes(s, weekday) == if s.differentSundaySchedule then (s.sundayTimeAuto, s.sundayTimeAway) else (s.timeAuto, s.timeAway)
  {
  }

  /**
   * Away from midnight the window is the ten minutes either side of the scheduled time,
   * both ends included.
   */
  lemma InWindowAwayFromMidnight(now: Clock, t: Clock)
    requires ValidClock(now) && ValidClock(t)
    requires Tolerance <= MinuteOfDay(t) < MinutesPerDay - Tolerance
    ensures InWindow(now, t) <==> MinuteOfDay(t) - Tolerance <= MinuteOfDay(now) <= MinuteOfDay(t) + Tolerance
  {
    var lo := AddMinutes(t, -Tolerance);
    var hi := AddMinutes(t, Tolerance);
    AddMinutesModular(t, -Tolerance);
    AddMinutesModular(t, Tolerance);
    SmallShift(MinuteOfDay(t), MinuteOfDay(lo), MinuteOfDay(hi));
    InRangeMinutes(now, lo, hi);
  }

  lemma SmallShift(m: int, lo: int, hi: int)
    requires 10 <= m < 1430
    requires lo == (m - 10) % 1440 && hi == (m + 10) % 1440
    ensures lo == m - 10 && hi == m + 10
  {
  }

  /**
   * Within ten minutes of midnight the window wraps, its start falls after its end, and the
   * range test accepts no time at all: the job never acts on such a scheduled time.
   */
  lemma InWindowNearMidnightEmpty(now: Clock, t: Clock)
    requires ValidClock(now) && ValidClock(t)
    requires MinuteOfDay(t) < Tolerance || MinuteOfDay(t) >= MinutesPerDay - Tolerance
    ensures !InWindow(now, t)
  {
    var lo := AddMinutes(t, -Tolerance);
    var hi := AddMinutes(t, Tolerance);
    AddMinutesModular(t, -Tolerance);
    AddMinutesModular(t, Tolerance);
    WrappedShift(MinuteOfDay(t), MinuteOfDay(lo), MinuteOfDay(hi));
    MilitaryTimeMonotone(hi, lo);
    InvertedRangeEmpty(now, lo, hi);
  }

  lemma WrappedShift(m: int, lo: int, hi: int)
    requires 0 <= m < 1440 && (m < 10 || m >= 1430)
    requires lo == (m - 10) % 1440 && hi == (m + 10) % 1440
    ensures lo > hi
  {
  }

  /**
   * Past the guards the decision is: Auto inside the auto window (even if also inside the away
   * window), else Away inside the away window, else nothing.
   */
  lemma EvaluateWindows(s: UserSchedule, localDate: Option<string>, weekday: Weekday, now: Clock)
    requires ValidSchedule(s) && ValidClock(now)
    requires !s.pauseUpdates && !(localDate.Some? && localDate.value in s.exceptionDates)
    requires !(weekday == Saturday && s.disableSaturdaySchedule) && !(weekday == Sunday && s.disableSundaySchedule)
    ensures var (auto, away) := ActiveTimes(s, weekday);
      Evaluate(s, localDate, weekday, now) ==
        if InWindow(now, auto) then SetAuto else if InWindow(now, away) then SetAway else NoUpdate(OutsideWindows)
  {
  }

  /** The decision at the instant `localMs` read in UTC: the zone's local date, weekday and time. */
  function LocalOutcome(s: UserSchedule, localMs: int): (r: Outcome)
    requires ValidSchedule(s)
    ensures r.NoUpdate? ==> r.reason in {Paused, DateExcluded, SaturdayDisabled, SundayDisabled, OutsideWindows}
  {
    Evaluate(s, LocalDate(localMs), LocalWeekday(localMs), LocalClock(localMs))
  }

  /** The stored record as the job reads it; `schedule` is the shape of `schedule.cmd.ts`. */
  datatype JobUserData = JobUserData(authToken: Option<string>, timezoneName: Option<string>, schedule: Option<UserSchedule>)

  /** A field is truthy when it is present and not the empty string. */
  predicate Truthy(v: Option<string>) { v.Some? && |v.value| > 0 }

  /** The guards on the record's fields, then the decision for the zone it names. */
  function HandleRecord(data: JobUserData, utcNow: int, offsetOf: string -> int): (r: Outcome)
    requires data.schedule.Some? ==> ValidSchedule(data.schedule.value)
    ensures !Truthy(data.authToken) ==> r == NoUpdate(MissingAuthToken)
    ensures Truthy(data.authToken) && !Truthy(data.timezoneName) ==> r == NoUpdate(MissingTimezone)
    ensures r.SetAuto? || r.SetAway? ==> Truthy(data.authToken) && Truthy(data.timezoneName) && data.schedule.Some?
    ensures r != NoUpdate(ReadError) && r != NoUpdate(MissingUserData)
    ensures Truthy(data.authToken) && Truthy(data.timezoneName) && data.schedule.Some? ==>
      r == LocalOutcome(data.schedule.value, utcNow + offsetOf(data.timezoneName.value))
  {
    if !Truthy(data.authToken) then NoUpdate(MissingAuthToken)
    else if !Truthy(data.timezoneName) then NoUpdate(MissingTimezone)
    else if data.schedule.None? then NoUpdate(MissingSchedule)
    else LocalOutcome(data.schedule.value, utcNow + offsetOf(data.timezoneName.value))
  }

  /**
   * `handler(evt)` from the read of the user's record on: the read's outcome, the current
   * instant and the timezone table's offsets are parameters.
   */
  function HandleJob(read: Result<Option<JobUserData>, string>, utcNow: int, offsetOf: string -> int): (r: Outcome)
    requires read.Success? && read.value.Some? && read.value.value.schedule.Some? ==> ValidSchedule(read.value.value.schedule.value)
    ensures read.Failure? <==> r == NoUpdate(ReadError)
    ensures read.Success? && read.value.None? <==> r == NoUpdate(MissingUserData)
    ensures r.SetAuto? || r.SetAway? ==>
      read.Success? && read.value.Some? && Truthy(read.value.value.authToken)
      && Truthy(read.value.value.timezoneName) && read.value.value.schedule.Some?
  {
    if read.Failure? then NoUpdate(ReadError)
    else if read.value.None? then NoUpdate(MissingUserData)
    else HandleRecord(read.value.value, utcNow, offsetOf)
  }

  /** Offsets for the example below: America/Regina is six hours behind UTC all year. */
  function ReginaOffsets(name: string): int
  {
    if name == "America/Regina" then -6 * MillisPerHour else 0
  }

  /**
   * A Regina user on the default schedule, Monday 2024-02-12: the job sets "auto" at 09:00
   * local (15:00 UTC) and "away" at 17:00 local (23:00 UTC), and does nothing at 18:00 local.
   */
  lemma ReginaDefaultScheduleMonday()
    ensures var data := JobUserData(Some("xoxp-token"), Some("America/Regina"), Some(DefaultSchedule()));
      HandleJob(Success(Some(data)), 1707750000000, ReginaOffsets) == SetAuto
      && HandleJob(Success(Some(data)), 1707778800000, ReginaOffsets) == SetAway
      && HandleJob(Success(Some(data)), 1707782400000, ReginaOffsets) == NoUpdate(OutsideWindows)
  {
    var s := DefaultSchedule();
    ReginaCase(1707750000000, 19765, Clock(9, 0));
    ReginaCase(1707778800000, 19765, Clock(17, 0));
    ReginaCase(1707782400000, 19765, Clock(18, 0));
    InWindowAwayFromMidnight(Clock(9, 0), s.timeAuto);
    InWindowAwayFromMidnight(Clock(17, 0), s.timeAuto);
    InWindowAwayFromMidnight(Clock(17, 0), s.timeAway);
    InWindowAwayFromMidnight(Clock(18, 0), s.timeAuto);
    InWindowAwayFromMidnight(Clock(18, 0), s.timeAway);
  }

  lemma ReginaCase(utcNow: int, day: int, local: Clock)
    requires ValidClock(local)
    requires (utcNow - 6 * MillisPerHour) == day * MillisPerDay + MinuteOfDay(local) * MillisPerMinute
    requires (day + 4) % 7 == 1
    ensures LocalWeekday(utcNow - 6 * MillisPerHour) == Monday
    ensures LocalClock(utcNow - 6 * MillisPerHour) == local
  {
    LocalAt(utcNow - 6 * MillisPerHour, day, local);
  }

  lemma LocalAt(ms: int, day: int, local: Clock)
    requires ValidClock(local)
    requires ms == day * MillisPerDay + MinuteOfDay(local) * MillisPerMinute
    requires (day + 4) % 7 == 1
    ensures LocalWeekday(ms) == Monday
    ensures LocalClock(ms) == local
  {
    DayAndMinute(ms, day, MinuteOfDay(local));
    MondayAt(ms);
    ClockAtMinute(ms, local);
  }

  lemma MondayAt(ms: int)
    requires (DayOf(ms) + 4) % 7 == 1
    ensures LocalWeekday(ms) == Monday
  {
    LocalWeekdayNumber(ms);
  }

  lemma ClockAtMinute(ms: int, local: Clock)
    requires ValidClock(local) && (ms / MillisPerMinute) % MinutesPerDay == MinuteOfDay(local)
    ensures LocalClock(ms) == local
  {
    MinuteOfDayInjective(LocalClock(ms), local);
  }

  lemma DayAndMinute(ms: int, day: int, k: int)
    requires 0 <= k < 1440 && ms == day * 86400000 + k * 60000
    ensures ms / 86400000 == day && (ms / 60000) % 1440 == k
  {
    assert ms / 60000 == day * 1440 + k;
  }
}
