/**
 * Worked examples of the model.  The first is the entry the report's own test
 * serves: project 123, tagged "Extra", from 2019-11-15T21:03:12Z to
 * 2019-11-16T15:16:03Z (65571 seconds), that is Friday 17:03:12 to Saturday
 * 11:16:03 in the report's zone.  The others show two consequences of the
 * rules as the report states them: an entry spanning a whole month from one
 * day of the month to the same day of the next is not cut at all, and day
 * labels sort by weekday name before the date.
 */
module Fixtures {
  import opened Calendar
  import opened Clock
  import opened Entries
  import opened Segments
  import opened Ledger
  import opened Reports
  import DayLabels

  /** The fetched entry of the test, with its instants as Unix seconds. */
  const TestRaw := RawEntry(123, 1573851792, "This is a fake task", 1573917363, ["Extra"])

  // Friday 2019-11-15 is day 18215; its local midnight is 1573776000.
  const FridayMidnight := 18215 * SecondsPerDay
  const SaturdayMidnight := 18216 * SecondsPerDay

  lemma FixtureDates()
    ensures CivilFromDays(18215) == Date(2019, 11, 15)
    ensures CivilFromDays(18216) == Date(2019, 11, 16)
  {
    assert Eras(18215 + EpochShift) == Split(5, 7198);
    assert Centuries(7198) == Split(0, 7198);
    assert Quads(7198) == Split(4, 1354);
    assert Years(1354) == Split(3, 259);
    assert SplitYears(18215 + EpochShift) == YearDay(2019, 259);
    assert MonthOfYear(259) == 8 && MonthOffset(8) == 245;
    assert Eras(18216 + EpochShift) == Split(5, 7199);
    assert Centuries(7199) == Split(0, 7199);
    assert Quads(7199) == Split(4, 1355);
    assert Years(1355) == Split(3, 260);
    assert SplitYears(18216 + EpochShift) == YearDay(2019, 260);
    assert MonthOfYear(260) == 8;
  }

  const TestEntry := ToEntry(TestRaw)
  // The test entry cut at the midnight between its two days ...
  const Friday := TestEntry.(stop := SaturdayMidnight - 1)
  const Saturday := TestEntry.(start := SaturdayMidnight)
  // ... the Friday part cut at 21:00 and the Saturday part at 06:00.
  const FridayDay := Friday.(stop := FridayMidnight + 21 * SecondsPerHour - 1)
  const FridayNight := Friday.(start := FridayMidnight + 21 * SecondsPerHour)
  const SaturdayNight := Saturday.(stop := SaturdayMidnight + 6 * SecondsPerHour - 1)
  const SaturdayMorning := Saturday.(start := SaturdayMidnight + 6 * SecondsPerHour)

  lemma CutAtMidnight()
    ensures NextSplit(TestEntry) == [Friday, Saturday]
  {
    FixtureDates();
    assert DayNumber(TestEntry.start) == 18215 && DayNumber(TestEntry.stop) == 18216;
    assert Day(TestEntry.start) == 15 && Day(TestEntry.stop) == 16;
  }

  lemma CutFridayAt9PM()
    ensures NextSplit(Friday) == [FridayDay, FridayNight]
  {
    assert DayNumber(Friday.start) == 18215 && DayNumber(Friday.stop) == 18215;
    assert Hour(Friday.start) == 17 && Hour(Friday.stop) == 23;
  }

  lemma CutSaturdayAt6AM()
    ensures NextSplit(Saturday) == [SaturdayNight, SaturdayMorning]
  {
    assert DayNumber(Saturday.start) == 18216 && DayNumber(Saturday.stop) == 18216;
    assert Hour(Saturday.start) == 0 && Hour(Saturday.stop) == 11;
  }

  lemma FixtureLeavesAreFinal()
    ensures IsTerminal(FridayDay) && IsTerminal(FridayNight)
    ensures IsTerminal(SaturdayNight) && IsTerminal(SaturdayMorning)
  {
    FridayDayIsFinal();
    FridayNightIsFinal();
    SaturdayNightIsFinal();
    SaturdayMorningIsFinal();
  }

  lemma FridayDayIsFinal()
    ensures IsTerminal(FridayDay)
  {
    assert DayNumber(FridayDay.start) == 18215 && DayNumber(FridayDay.stop) == 18215;
    assert Hour(FridayDay.start) == 17 && Hour(FridayDay.stop) == 20;
  }

  lemma FridayNightIsFinal()
    ensures IsTerminal(FridayNight)
  {
    assert DayNumber(FridayNight.start) == 18215 && DayNumber(FridayNight.stop) == 18215;
    assert Hour(FridayNight.start) == 21 && Hour(FridayNight.stop) == 23;
  }

  lemma SaturdayNightIsFinal()
    ensures IsTerminal(SaturdayNight)
  {
    assert DayNumber(SaturdayNight.start) == 18216 && DayNumber(SaturdayNight.stop) == 18216;
    assert Hour(SaturdayNight.start) == 0 && Hour(SaturdayNight.stop) == 5;
  }

  lemma SaturdayMorningIsFinal()
    ensures IsTerminal(SaturdayMorning)
  {
    assert DayNumber(SaturdayMorning.start) == 18216 && DayNumber(SaturdayMorning.stop) == 18216;
    assert Hour(SaturdayMorning.start) == 6 && Hour(SaturdayMorning.stop) == 11;
  }

  /** The pieces the test entry is filed as, in filing order: Saturday 06:00-11:16:03,
      Saturday 00:00-05:59:59, Friday 21:00-23:59:59, Friday 17:03:12-20:59:59. */
  lemma FixturePieces()
    ensures Pieces(TestEntry) == [SaturdayMorning, SaturdayNight, FridayNight, FridayDay]
  {
    CutAtMidnight();
    PiecesOfCut(TestEntry, Friday, Saturday);
    FridayPieces();
    SaturdayPieces();
  }

  lemma FridayPieces()
    ensures Pieces(Friday) == [FridayNight, FridayDay]
  {
    CutFridayAt9PM();
    FixtureLeavesAreFinal();
    TwoPieces(Friday, FridayDay, FridayNight);
  }

  lemma SaturdayPieces()
    ensures Pieces(Saturday) == [SaturdayMorning, SaturdayNight]
  {
    CutSaturdayAt6AM();
    FixtureLeavesAreFinal();
    TwoPieces(Saturday, SaturdayNight, SaturdayMorning);
  }

  // Every piece of the test entry counts as weekday work (Saturday before noon included);
  // the two that stop at night, Friday 23:59:59 and Saturday 05:59:59, are nightly.

  lemma SaturdayMorningBuckets()
    ensures IsWorkday(SaturdayMorning) && !IsNightly(SaturdayMorning)
  {
    assert Weekday(SaturdayMorning.stop) == 6 && Hour(SaturdayMorning.stop) == 11;
  }

  lemma SaturdayNightBuckets()
    ensures IsWorkday(SaturdayNight) && IsNightly(SaturdayNight)
  {
    assert Weekday(SaturdayNight.stop) == 6 && Hour(SaturdayNight.stop) == 5;
  }

  lemma FridayNightBuckets()
    ensures IsWorkday(FridayNight) && IsNightly(FridayNight)
  {
    assert Weekday(FridayNight.start) == 5 && Hour(FridayNight.stop) == 23;
  }

  lemma FridayDayBuckets()
    ensures IsWorkday(FridayDay) && !IsNightly(FridayDay)
  {
    assert Weekday(FridayDay.start) == 5 && Hour(FridayDay.stop) == 20;
  }

  /** CreateFromRawEntries files the test entry's pieces once: it carries one "Extra" tag. */
  lemma FixtureFiled()
    ensures Filed([TestRaw]) == [SaturdayMorning, SaturdayNight, FridayNight, FridayDay]
  {
    assert ExtraCount(TestRaw.tags) == 1;
    FiledOnce(TestRaw);
    FixturePieces();
  }

  /** Filing four pieces is filing them one after the other. */
  lemma AccountFour(t: Totals, a: Entry, b: Entry, c: Entry, d: Entry)
    ensures AccountAll(t, [a, b, c, d]) == Account(Account(Account(Account(t, a), b), c), d)
  {
    assert [a, b, c] + [d] == [a, b, c, d];
    assert [a, b] + [c] == [a, b, c];
    assert [a] + [b] == [a, b];
    assert [] + [a] == [a];
    FileOne(t, map[], [a, b, c], d);
    FileOne(t, map[], [a, b], c);
    FileOne(t, map[], [a], b);
    FileOne(t, map[], [], a);
  }

  /** What the test's list holds after CreateFromRawEntries: 65568 seconds of weekday work,
      32398 of them nightly, and nothing on the weekend. */
  lemma FixtureTotals()
    ensures AccountAll(NoTotals, Filed([TestRaw])) == Totals(65568, 0, 32398, 0)
  {
    FixtureFiled();
    AccountFour(NoTotals, SaturdayMorning, SaturdayNight, FridayNight, FridayDay);
    SaturdayMorningBuckets();
    SaturdayNightBuckets();
    FridayNightBuckets();
    FridayDayBuckets();
    var t1 := Account(NoTotals, SaturdayMorning);
    assert t1 == Totals(18963, 0, 0, 0);
    var t2 := Account(t1, SaturdayNight);
    assert t2 == Totals(18963 + 21599, 0, 21599, 0);
    var t3 := Account(t2, FridayNight);
    assert t3 == Totals(18963 + 21599 + 10799, 0, 21599 + 10799, 0);
    assert Account(t3, FridayDay) == Totals(65568, 0, 32398, 0);
  }

  /** The test entry's pieces are filed under project 123 only ... */
  lemma FixtureProjects()
    ensures IndexAll(map[], Filed([TestRaw])).Keys == {123}
  {
    FixtureFiled();
    var ps := [SaturdayMorning, SaturdayNight, FridayNight, FridayDay];
    OneProject(ps, 123);
    IndexAllKeys(map[], ps);
  }

  /** The summary of the report's test: the list built from the test response, summarized with
      project 123 named "fakeproject", has the fixture's totals and exactly one project section,
      for project 123 under that name. */
  method FixtureSummary() returns (s: Summary)
    ensures s.totals == Totals(65568, 0, 32398, 0)
    ensures |s.projects| == 1 && s.projects[0].projectId == 123 && s.projects[0].name == "fakeproject"
  {
    var list := CreateFromRawEntries([TestRaw]);
    FixtureTotals();
    FixtureProjects();
    s := list.GetSummaryWithProjectInformation(map[123 := "fakeproject"]);
    OneSection(s, list.entryMapping, map[123 := "fakeproject"], 123);
  }

  /** A summary of an index holding one project has one section, for that project. */
  lemma OneSection(s: Summary, m: Mapping, projects: map<int, string>, pid: int)
    requires m.Keys == {pid}
    requires forall k :: 0 <= k < |s.projects| ==>
      s.projects[k].projectId in m &&
      IsSection(s.projects[k], s.projects[k].projectId, ProjectName(projects, s.projects[k].projectId),
                m[s.projects[k].projectId])
    requires forall q :: q in m ==> exists k :: 0 <= k < |s.projects| && s.projects[k].projectId == q
    requires forall i, j :: 0 <= i < j < |s.projects| ==> s.projects[i].projectId != s.projects[j].projectId
    ensures |s.projects| == 1 && s.projects[0].projectId == pid && s.projects[0].name == ProjectName(projects, pid)
  {
    assert pid in m;
    var k :| 0 <= k < |s.projects| && s.projects[k].projectId == pid;
    assert s.projects[0].projectId in m;
  }

  lemma OneProject(ps: seq<Entry>, pid: int)
    requires ps != [] && forall p :: p in ps ==> p.projectId == pid
    ensures ProjectIds(ps) == {pid}
  {
    assert ps[0].projectId in ProjectIds(ps);
  }

  /** ... under the labels of its two days. */
  lemma FixtureLabels()
    ensures FormatDay(FridayDay) == "Friday, 15/11/2019" && FormatDay(FridayNight) == "Friday, 15/11/2019"
    ensures FormatDay(SaturdayNight) == "Saturday, 16/11/2019" && FormatDay(SaturdayMorning) == "Saturday, 16/11/2019"
  {
    FridayLabel(FridayDay);
    FridayLabel(FridayNight);
    SaturdayLabel(SaturdayNight);
    SaturdayLabel(SaturdayMorning);
  }

  lemma FridayLabel(e: Entry)
    requires DayNumber(e.start) == 18215
    ensures FormatDay(e) == "Friday, 15/11/2019"
  {
    FixtureDates();
    FixtureNumbers();
  }

  lemma SaturdayLabel(e: Entry)
    requires DayNumber(e.start) == 18216
    ensures FormatDay(e) == "Saturday, 16/11/2019"
  {
    FixtureDates();
    FixtureNumbers();
  }

  /** The digits the two labels print. */
  lemma FixtureNumbers()
    ensures DayLabels.AppendInt(15, 2) == "15" && DayLabels.AppendInt(16, 2) == "16"
    ensures DayLabels.AppendInt(11, 2) == "11" && DayLabels.AppendInt(2019, 4) == "2019"
  {
    assert DayLabels.AppendInt(15, 2) == "15" && DayLabels.AppendInt(16, 2) == "16";
    assert DayLabels.AppendInt(11, 2) == "11";
  }

  // ---------------------------------------------------------------------
  // Two consequences of the rules as written
  // ---------------------------------------------------------------------

  /** From Tuesday 2019-10-15 10:00 to Friday 2019-11-15 09:00: 31 days less an hour. */
  const MonthLong := Entry(123, [], "", 18184 * SecondsPerDay + 10 * SecondsPerHour, 18215 * SecondsPerDay + 9 * SecondsPerHour)

  lemma OctoberDate()
    ensures CivilFromDays(18184) == Date(2019, 10, 15)
  {
    assert Eras(18184 + EpochShift) == Split(5, 7167);
    assert Centuries(7167) == Split(0, 7167);
    assert Quads(7167) == Split(4, 1323);
    assert Years(1323) == Split(3, 228);
    assert SplitYears(18184 + EpochShift) == YearDay(2019, 228);
    assert MonthOfYear(228) == 7 && MonthOffset(7) == 214;
  }

  /** The day rule compares days of the month only, and no hour rule applies, so the
      month-long entry is filed whole, as one piece on its start's day. */
  lemma MonthLongIsNotCut()
    ensures Duration(MonthLong) == 31 * SecondsPerDay - SecondsPerHour
    ensures Pieces(MonthLong) == [MonthLong]
  {
    MonthLongDays();
    MonthLongHours();
    NoLaterHourNotCut(MonthLong);
  }

  lemma MonthLongHours()
    ensures Hour(MonthLong.stop) <= Hour(MonthLong.start)
  {
    assert Hour(MonthLong.start) == 10 && Hour(MonthLong.stop) == 9;
  }

  /** Any entry whose stop shows the same day of the month as its start, at an hour no later
      than the start's, is filed whole, however many days lie between. */
  lemma NoLaterHourNotCut(e: Entry)
    requires Day(e.start) == Day(e.stop) && Hour(e.stop) <= Hour(e.start)
    ensures Pieces(e) == [e]
  {
    PiecesOfTerminal(e);
  }

  lemma MonthLongDays()
    ensures Day(MonthLong.start) == 15 && Day(MonthLong.stop) == 15
  {
    OctoberDate();
    FixtureDates();
    assert DayNumber(MonthLong.start) == 18184 && DayNumber(MonthLong.stop) == 18215;
  }

  /** An entry from Friday 2019-02-01 23:00 to Friday 2019-03-01 01:00: 27 days and two hours,
      fewer than 28 days of elapsed time, yet its stop falls 28 calendar days after its start. */
  const FebruaryLong := Entry(123, [], "", 17928 * SecondsPerDay + 23 * SecondsPerHour, 17956 * SecondsPerDay + SecondsPerHour)

  lemma FebruaryDates()
    ensures CivilFromDays(17928) == Date(2019, 2, 1)
    ensures CivilFromDays(17956) == Date(2019, 3, 1)
  {
    assert Eras(17928 + EpochShift) == Split(5, 6911);
    assert Centuries(6911) == Split(0, 6911);
    assert Quads(6911) == Split(4, 1067);
    assert Years(1067) == Split(2, 337);
    assert SplitYears(17928 + EpochShift) == YearDay(2018, 337);
    assert MonthOfYear(337) == 11 && MonthOffset(11) == 337;
    assert Eras(17956 + EpochShift) == Split(5, 6939);
    assert Centuries(6939) == Split(0, 6939);
    assert Quads(6939) == Split(4, 1095);
    assert Years(1095) == Split(3, 0);
    assert SplitYears(17956 + EpochShift) == YearDay(2019, 0);
    assert MonthOfYear(0) == 0 && MonthOffset(0) == 0;
  }

  /** Both ends of the February entry fall on the 1st, at hours 23 and 1. */
  lemma FebruaryLongFields()
    ensures Day(FebruaryLong.start) == 1 && Day(FebruaryLong.stop) == 1
    ensures Hour(FebruaryLong.start) == 23 && Hour(FebruaryLong.stop) == 1
    ensures DayNumber(FebruaryLong.start) == 17928 && DayNumber(FebruaryLong.stop) == 17956
  {
    FebruaryDates();
    assert DayNumber(FebruaryLong.start) == 17928 && DayNumber(FebruaryLong.stop) == 17956;
  }

  /** Why the within-one-day lemmas bound calendar days, not elapsed time: the February entry
      lasts less than 28 days but is filed whole, as one piece spanning 29 calendar days. */
  lemma FebruaryLongIsNotCut()
    ensures FebruaryLong.stop - FebruaryLong.start < 28 * SecondsPerDay
    ensures DayNumber(FebruaryLong.stop) - DayNumber(FebruaryLong.start) == 28
    ensures Pieces(FebruaryLong) == [FebruaryLong]
  {
    FebruaryLongFields();
    NoLaterHourNotCut(FebruaryLong);
  }

  lemma ThursdayDate()
    ensures CivilFromDays(18214) == Date(2019, 11, 14)
  {
    assert Eras(18214 + EpochShift) == Split(5, 7197);
    assert Centuries(7197) == Split(0, 7197);
    assert Quads(7197) == Split(4, 1353);
    assert Years(1353) == Split(3, 258);
    assert SplitYears(18214 + EpochShift) == YearDay(2019, 258);
    assert MonthOfYear(258) == 8 && MonthOffset(8) == 245;
  }

  lemma ThursdayLabel(e: Entry)
    requires DayNumber(e.start) == 18214
    ensures FormatDay(e) == "Thursday, 14/11/2019"
  {
    ThursdayDate();
    assert DayLabels.AppendInt(14, 2) == "14";
    FixtureNumbers();
  }

  /** Day labels sort as strings, weekday name first: a piece started on Friday 2019-11-15
      is listed before one started the day before. */
  lemma LabelsSortByWeekdayName(thursday: Entry, friday: Entry)
    requires DayNumber(thursday.start) == 18214 && DayNumber(friday.start) == 18215
    ensures thursday.start < friday.start
    ensures DayLabels.LexLess(FormatDay(friday), FormatDay(thursday))
  {
    if friday.start <= thursday.start {
      DayNumberMonotone(friday.start, thursday.start);
    }
    ThursdayLabel(thursday);
    FridayLabel(friday);
    assert "Friday, 15/11/2019"[0] < "Thursday, 14/11/2019"[0];
  }
}
