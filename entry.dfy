/**
 * A tracked time entry and the four rules that cut it in two: at the change
 * of day, at 9 PM, at 6 AM and at noon on a Saturday.  Every rule looks only
 * at the days of the month of the start and of the stop, the hour of the
 * start and of the stop, and (for the noon rule) the weekday of the start;
 * every hour cut is placed on the start's day, and the day cut at the
 * midnight that ends it.  A rule either leaves the entry alone (no pieces) or
 * returns two copies of it: the first keeps the start and ends one second
 * before the cut, the second starts at the cut and keeps the stop.
 *
 * Also here: the predicates that choose the buckets an entry is counted in,
 * its duration, and its day label.
 */
module Entries {
  import opened Clock
  import Calendar
  import DayLabels

  /** A time entry; start and stop are instants in local seconds (see Clock). */
  datatype Entry = Entry(projectId: int, tags: seq<string>, description: string, start: int, stop: int)

  /** p and q are e cut in two: p runs from e's start to one second before q's start,
      q runs from there to e's stop, and both keep e's project, tags and description. */
  predicate IsCut(e: Entry, p: Entry, q: Entry)
  {
    p == e.(stop := q.start - 1) && q == e.(start := q.start)
  }

  function CutAt(e: Entry, boundary: int): seq<Entry>
  {
    [e.(stop := boundary - 1), e.(start := boundary)]
  }

  /** The day rule: an entry whose start and stop fall on different days of the month is
      cut at the midnight that follows its start. */
  function SplitInDifferentDays(e: Entry): (r: seq<Entry>)
    ensures r == [] <==> Day(e.start) == Day(e.stop)
    ensures r != [] ==> |r| == 2 && IsCut(e, r[0], r[1])
    ensures r != [] ==> DayNumber(r[1].start) == DayNumber(e.start) + 1 && SecondOfDay(r[1].start) == 0
    ensures r != [] ==> DayNumber(r[0].stop) == DayNumber(e.start) && SecondOfDay(r[0].stop) == SecondsPerDay - 1
  {
    if Day(e.start) == Day(e.stop) then
      []
    else
      [e.(stop := EndOfDay(e.start)), e.(start := StartOfDay(AddDays(e.start, 1)))]
  }

  /** The 9 PM rule: an entry that starts before 21:00 and stops in the 21:00 hour or later
      is cut at 21:00 of its start's day. */
  function SplitAfter9PM(e: Entry): (r: seq<Entry>)
    ensures r == [] <==> !(Hour(e.start) < 21 <= Hour(e.stop))
    ensures r != [] ==> |r| == 2 && IsCut(e, r[0], r[1])
    ensures r != [] ==> DayNumber(r[1].start) == DayNumber(e.start) && SecondOfDay(r[1].start) == 21 * SecondsPerHour
  {
    var splitDate := At9PM(e.start);
    var stopAfter9PM := Hour(e.stop) >= Hour(splitDate);
    var startBefore9PM := Hour(e.start) < Hour(splitDate);
    if stopAfter9PM && startBefore9PM then CutAt(e, splitDate) else []
  }

  /** The 6 AM rule: an entry that starts before 06:00 and stops in the 06:00 hour or later
      is cut at 06:00 of its start's day. */
  function SplitBefore6AM(e: Entry): (r: seq<Entry>)
    ensures r == [] <==> !(Hour(e.start) < 6 <= Hour(e.stop))
    ensures r != [] ==> |r| == 2 && IsCut(e, r[0], r[1])
    ensures r != [] ==> DayNumber(r[1].start) == DayNumber(e.start) && SecondOfDay(r[1].start) == 6 * SecondsPerHour
  {
    var splitDate := At6AM(e.start);
    var startBefore6AM := Hour(e.start) < Hour(splitDate);
    var stopAfter6AM := Hour(e.stop) >= Hour(splitDate);
    if startBefore6AM && stopAfter6AM then CutAt(e, splitDate) else []
  }

  /** The Saturday noon rule: an entry that starts on a Saturday before 12:00 and stops in
      the 12:00 hour or later is cut at 12:00 of its start's day. */
  function SplitBeforeSaturdayNoon(e: Entry): (r: seq<Entry>)
    ensures r == [] <==> !(Weekday(e.start) == 6 && Hour(e.start) < 12 <= Hour(e.stop))
    ensures r != [] ==> |r| == 2 && IsCut(e, r[0], r[1])
    ensures r != [] ==> DayNumber(r[1].start) == DayNumber(e.start) && SecondOfDay(r[1].start) == 12 * SecondsPerHour
  {
    var splitDate := AtNoon(e.start);
    if Weekday(splitDate) != 6 then
      []
    else
      var startBefore12PM := Hour(e.start) < Hour(splitDate);
      var stopAfter12PM := Hour(e.stop) >= Hour(splitDate);
      if startBefore12PM && stopAfter12PM then CutAt(e, splitDate) else []
  }

  /** The rules in the order the report tries them; the first that cuts wins. */
  function NextSplit(e: Entry): (r: seq<Entry>)
    ensures r == [] <==>
      Day(e.start) == Day(e.stop) &&
      !(Hour(e.start) < 21 <= Hour(e.stop)) &&
      !(Hour(e.start) < 6 <= Hour(e.stop)) &&
      !(Weekday(e.start) == 6 && Hour(e.start) < 12 <= Hour(e.stop))
    ensures r != [] ==> |r| == 2 && IsCut(e, r[0], r[1])
    ensures r != [] ==> e.start < r[1].start
    ensures r != [] && Day(e.start) != Day(e.stop) ==>
      DayNumber(r[1].start) == DayNumber(e.start) + 1 && SecondOfDay(r[1].start) == 0
    ensures r != [] && Day(e.start) == Day(e.stop) ==> DayNumber(r[1].start) == DayNumber(e.start)
    ensures r != [] && Day(e.start) == Day(e.stop) ==>
      SecondOfDay(r[1].start) ==
        (if Hour(e.start) < 21 <= Hour(e.stop) then 21
         else if Hour(e.start) < 6 <= Hour(e.stop) then 6
         else 12) * SecondsPerHour
    ensures r != [] && e.start <= e.stop ==> r[1].start <= e.stop
  {
    var byDay := SplitInDifferentDays(e);
    if byDay != [] then
      CutAfterDayChange(e, byDay[1].start);
      byDay
    else
      var at9PM := SplitAfter9PM(e);
      if at9PM != [] then
        HourCutInside(e, at9PM[1].start, 21);
        at9PM
      else
        var at6AM := SplitBefore6AM(e);
        if at6AM != [] then
          HourCutInside(e, at6AM[1].start, 6);
          at6AM
        else
          var atNoon := SplitBeforeSaturdayNoon(e);
          if atNoon != [] then HourCutInside(e, atNoon[1].start, 12); atNoon else []
  }

  /** A cut at the next midnight lies after the start and, when the stop is on a later
      day, no later than the stop. */
  lemma CutAfterDayChange(e: Entry, b: int)
    requires DayNumber(b) == DayNumber(e.start) + 1 && SecondOfDay(b) == 0
    requires Day(e.start) != Day(e.stop)
    ensures e.start < b
    ensures e.start <= e.stop ==> b <= e.stop
  {
    if e.start <= e.stop {
      DayNumberMonotone(e.start, e.stop);
      assert DayNumber(e.stop) != DayNumber(e.start);
    }
  }

  /** A cut at hour h of the start's day, made because the start's hour is before h and
      the stop's hour is h or later, lies after the start and no later than an ordered stop. */
  lemma HourCutInside(e: Entry, b: int, h: int)
    requires 0 <= h < 24
    requires DayNumber(b) == DayNumber(e.start) && SecondOfDay(b) == h * SecondsPerHour
    requires Hour(e.start) < h <= Hour(e.stop)
    ensures e.start < b
    ensures e.start <= e.stop ==> b <= e.stop
  {
    if e.start <= e.stop {
      DayNumberMonotone(e.start, e.stop);
    }
  }

  /** An entry no rule cuts: the report files it as it is. */
  predicate IsTerminal(e: Entry)
  {
    NextSplit(e) == []
  }

  /** Nightly: the stop's hour is 6 or earlier, or 21 or later (so a stop at 06:59:59
      still counts as nightly). */
  predicate IsNightly(e: Entry): (b: bool)
    ensures b <==> Hour(e.stop) <= 6 || 21 <= Hour(e.stop)
  {
    Hour(e.stop) <= Hour(At6AM(e.stop)) || Hour(e.stop) >= Hour(At9PM(e.start))
  }

  /** Named as in the report, but true when the start falls on Monday to Friday. */
  predicate IsWeekend(e: Entry): (b: bool)
    ensures b <==> 1 <= Weekday(e.start) <= 5
  {
    Weekday(e.start) != 0 && Weekday(e.start) != 6
  }

  /** Counted as weekday work: a start from Monday to Friday, or a stop before noon on a
      Saturday; everything else (Saturday afternoon, Sunday) is weekend work. */
  predicate IsWorkday(e: Entry): (b: bool)
    ensures b <==> 1 <= Weekday(e.start) <= 5 || (Weekday(e.stop) == 6 && Hour(e.stop) < 12)
  {
    if IsWeekend(e) then true else Weekday(e.stop) == 6 && Hour(e.stop) < 12
  }

  /** Length of the entry in seconds; negative when the stop precedes the start. */
  function Duration(e: Entry): int
  {
    e.stop - e.start
  }

  /** A cut loses one second: the halves' durations add up to the entry's, less one. */
  lemma CutLosesOneSecond(e: Entry, p: Entry, q: Entry)
    requires IsCut(e, p, q)
    ensures Duration(p) + Duration(q) == Duration(e) - 1
  {
  }

  /** The day label of the entry: its start's date as "Monday, 02/01/2006". */
  function FormatDay(e: Entry): string
  {
    DayLabels.Label(CivilDate(e.start), Weekday(e.start))
  }

  /** Within years 0..9999, two entries get the same label exactly when they start on the
      same day. */
  lemma FormatDaySameDay(a: Entry, b: Entry)
    requires 0 <= CivilDate(a.start).year <= 9999 && 0 <= CivilDate(b.start).year <= 9999
    ensures FormatDay(a) == FormatDay(b) <==> DayNumber(a.start) == DayNumber(b.start)
  {
    if FormatDay(a) == FormatDay(b) {
      Calendar.CivilFromDaysValid(DayNumber(a.start));
      Calendar.CivilFromDaysValid(DayNumber(b.start));
      DayLabels.LabelDeterminesDate(CivilDate(a.start), Weekday(a.start), CivilDate(b.start), Weekday(b.start));
      Calendar.CivilFromDaysInjective(DayNumber(a.start), DayNumber(b.start));
    }
  }
}
