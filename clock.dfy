/**
 * Time in the report's fixed zone (UTC-4, "Dominican Republic Time", no
 * daylight saving).  An instant is an integer count of LOCAL seconds: the
 * Unix time plus the zone offset, so that day and hour arithmetic is plain
 * integer division.  The helpers below are the ones the report uses to find
 * the start and end of a day and the 6 AM, 9 PM and 12 PM instants of a day.
 */
module Clock {
  import Calendar

  /** Offset of the report's zone from UTC, in seconds. */
  const UtcOffset := -4 * 60 * 60
  const SecondsPerHour := 3600
  const SecondsPerDay := 86400

  /** The local-seconds instant of a Unix time, as seen in the report's zone. */
  function InZone(unix: int): int
  {
    unix + UtcOffset
  }

  /** Days since 1970-01-01 (local) of instant t. */
  function DayNumber(t: int): int
  {
    t / SecondsPerDay
  }

  function SecondOfDay(t: int): (s: int)
    ensures 0 <= s < SecondsPerDay
    ensures t == DayNumber(t) * SecondsPerDay + s
  {
    t % SecondsPerDay
  }

  /** The hour field of t, as Go's Time.Hour. */
  function Hour(t: int): (h: int)
    ensures 0 <= h < 24
    ensures h * SecondsPerHour <= SecondOfDay(t) < (h + 1) * SecondsPerHour
  {
    SecondOfDay(t) / SecondsPerHour
  }

  /** The weekday of t, Sunday = 0 as in Go; 1970-01-01 was a Thursday. */
  function Weekday(t: int): (w: int)
    ensures 0 <= w < 7
  {
    (DayNumber(t) + 4) % 7
  }

  /** The civil date of t, as Go's Time.Date. */
  function CivilDate(t: int): Calendar.Date
  {
    Calendar.CivilFromDays(DayNumber(t))
  }

  /** The day of the month of t, as Go's Time.Day. */
  function Day(t: int): int
  {
    Calendar.DayOfMonth(DayNumber(t))
  }

  /** t moved n calendar days forward, as Go's AddDate(0, 0, n) in a fixed zone. */
  function AddDays(t: int, n: int): (r: int)
    ensures DayNumber(r) == DayNumber(t) + n && SecondOfDay(r) == SecondOfDay(t)
  {
    t + n * SecondsPerDay
  }

  /** Midnight at the start of t's day. */
  function StartOfDay(t: int): (r: int)
    ensures DayNumber(r) == DayNumber(t) && SecondOfDay(r) == 0
    ensures r <= t < r + SecondsPerDay
  {
    t - SecondOfDay(t)
  }

  /** 23:59:59 of t's day: one second before the next day's midnight. */
  function EndOfDay(t: int): (r: int)
    ensures DayNumber(r) == DayNumber(t) && SecondOfDay(r) == SecondsPerDay - 1
    ensures t <= r
  {
    StartOfDay(AddDays(t, 1)) - 1
  }

  /** hour:00:00 of t's day. */
  function ClockOnDay(t: int, hour: int): (r: int)
    requires 0 <= hour < 24
    ensures DayNumber(r) == DayNumber(t) && SecondOfDay(r) == hour * SecondsPerHour
    ensures Hour(r) == hour
  {
    StartOfDay(t) + hour * SecondsPerHour
  }

  function At6AM(t: int): int
  {
    ClockOnDay(t, 6)
  }

  function At9PM(t: int): int
  {
    ClockOnDay(t, 21)
  }

  function AtNoon(t: int): int
  {
    ClockOnDay(t, 12)
  }

  /** The zone's midnight of a civil date, as Go's time.Date(y, m, d, 0, 0, 0, 0, zone). */
  function MidnightOf(d: Calendar.Date): int
  {
    Calendar.DaysFromCivil(d) * SecondsPerDay
  }

  /** StartOfDay is the midnight of t's own civil date, which is how the report builds it. */
  lemma StartOfDayIsMidnightOfDate(t: int)
    ensures StartOfDay(t) == MidnightOf(CivilDate(t))
  {
    Calendar.DaysFromCivilInverse(DayNumber(t));
  }

  /** The weekday agrees with the weekday of the civil date, computed from the date alone. */
  lemma WeekdayOfDate(t: int)
    ensures Weekday(t) == Calendar.DayOfWeek(CivilDate(t))
  {
    var n := DayNumber(t);
    var d := CivilDate(t);
    Calendar.CivilFromDaysValid(n);
    Calendar.DaysFromCivilInverse(n);
    Calendar.DayOfWeekOfDays(d);
  }

  /** Instants of a later day are later; an earlier instant is on the same day or an earlier one. */
  lemma DayNumberMonotone(a: int, b: int)
    requires a <= b
    ensures DayNumber(a) <= DayNumber(b)
  {
  }
}
