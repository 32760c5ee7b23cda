# Time report: segmentation and aggregation of tracked entries

This project models the engine behind a time report (`api/reports/entry.go`).
The report fetches tracked time entries. Each one has a project id, tags, a description,
a start and a stop. The engine turns them into four running totals and an index of
pieces by project and day.

- **Zone.** Every instant is read in a fixed zone, UTC−4, with no daylight saving. An
  instant is modelled as integer local seconds: Unix time minus 14400 (module `Clock`).
  Day-of-month, month and year come from a proleptic Gregorian day-count conversion
  (module `Calendar`). The weekday is the day count plus four, modulo seven, with
  Sunday = 0 as in Go.
- **Cutting rules** (module `Entries`). Four rules cut an entry in two, at one of:
  - the midnight after its start, when the start's and stop's days of the month differ;
  - 21:00 of the start's day, when the start's hour is before 21 and the stop's is 21 or later;
  - 06:00, by the same test with hour 6;
  - 12:00, on a Saturday, by the same test with hour 12.

  A cut gives [start, boundary − 1 s] and [boundary, stop]. Both halves keep the
  project, tags and description.
- **Filing** (modules `Segments`, `Ledger`, `Reports`). `AddEntry` keeps a stack and
  pops the top entry. If a rule cuts it (rules are tried in the order above), it pushes
  both halves; otherwise it files the piece:
  - it appends the piece to the list under its project and its day label
    ("Friday, 15/11/2019");
  - it adds the piece's duration to the weekday or weekend total;
  - when the piece is nightly, it also adds the duration to the matching nightly total.

  `Segments.Pieces` is the sequence of pieces filed, latest first, so `AddEntry` is
  specified by folding `Ledger.Account` and `Ledger.Index` over it.
- **Other operations.**
  - `GetProjectIDs` lists the projects other than 0.
  - The summary sorts each project's day labels as strings and each day's pieces by start.
    It sorts the stored lists in place.
  - `CreateFromRawEntries` files a fetched entry once for each "Extra" tag it carries.

Behaviour of the code as written, kept in the model and proved about it:

- `isWeekend` is true from Monday to Friday. `isWorkday` is therefore true for a start on
  Monday to Friday, or for a stop before noon on a Saturday.
- A piece is nightly when its stop's hour is 6 or less, or 21 or more. So a stop at
  06:59:59 is still nightly.
- The day rule compares days of the month only. An entry from 2019-10-15 10:00 to
  2019-11-15 09:00 is filed whole, as one piece labelled with its start's day
  (`Fixtures.MonthLongIsNotCut`). For an ordered entry whose stop's day is fewer than 28
  days after its start's day, the comparison is enough: every piece lies within one
  calendar day, and every day of the entry has a piece (`Segments.PiecesWithinOneDay`,
  `Segments.PiecesCoverDays`). The bound is on calendar days, not elapsed time: an entry
  from 2019-02-01 23:00 to 2019-03-01 01:00 lasts 27 days and 2 hours, yet it is filed
  whole, across 29 calendar days (`Fixtures.FebruaryLongIsNotCut`).
- Day labels sort as strings, weekday name first. "Friday, 15/11/2019" is listed before
  "Thursday, 14/11/2019" (`Fixtures.LabelsSortByWeekdayName`).
- An entry whose stop precedes its start is tolerated. The day rule moves its start
  forward one midnight at a time until the day of the month matches the stop's, and
  `Calendar.DayOfMonthRecurs` bounds that walk. The filing loop therefore ends for every
  entry (`Segments.SplitWeight`).

## Model

| member | source | states |
|---|---|---|
| Calendar.CivilFromDaysValid | api/reports/entry.go:65 | The date of any day count is a real date: month 1..12, and a day within that month's length, leap Februaries included. |
| Calendar.DaysFromCivilInverse | api/reports/entry.go:16-18 | Building a day from the year, month and day of a day count gives back that day count. |
| Calendar.CivilFromDaysInjective | api/reports/entry.go:155-157 | Distinct days have distinct dates. |
| Calendar.DayOfMonthDiffers | api/reports/entry.go:64-67 | Two days fewer than 28 days apart never have the same day of the month, so the day rule sees every midnight such an entry crosses. |
| Calendar.DayOfMonthRecurs | api/reports/entry.go:64-72 | From any day, every day of the month from 1 to 31 comes round within 92 days. |
| Calendar.DaysUntilStep | api/reports/entry.go:72 | Moving to the next midnight shortens the wait for the stop's day of the month by one day. |
| Clock.Hour | api/reports/entry.go:80-81 | The hour is 0..23 and brackets the instant's second of the day. |
| Clock.AddDays | api/reports/entry.go:72 | Adding n days moves the day number by n and keeps the clock reading. |
| Clock.StartOfDay | api/reports/entry.go:16-18 | Midnight of the instant's day: same day, second 0, at most one day before the instant. |
| Clock.EndOfDay | api/reports/entry.go:20-22 | One second before the next day's midnight: 23:59:59 of the same day, not before the instant. |
| Clock.ClockOnDay | api/reports/entry.go:24-34 | The h:00:00 instant of the instant's own day, whose hour is h. |
| Clock.StartOfDayIsMidnightOfDate | api/reports/entry.go:16-18 | Midnight of an instant's day is midnight of its civil date, the way the report builds it. |
| Clock.WeekdayOfDate | api/reports/entry.go:113 | The weekday used by the Saturday rule and by isWorkday/isWeekend (the day count plus 4, modulo 7) is the weekday of the instant's civil date, computed from the date alone by Sakamoto's rule. |
| Calendar.DayOfWeekOfDays | api/reports/entry.go:144-148 | For every date, counting from Thursday 1970-01-01 gives the same weekday as Sakamoto's rule. |
| DayLabels.AppendIntReadsBack | api/reports/entry.go:155-157 | A zero-padded field is at least its width long and reads back as its value. |
| DayLabels.LabelTail | api/reports/entry.go:155-157 | A label ends with dd/mm/yyyy, whose fields read back as the date's day, month and year. |
| DayLabels.LabelDeterminesDate | api/reports/entry.go:155-157 | For four-digit years, equal labels mean equal dates. |
| DayLabels.LexLessIrreflexive | api/reports/entry.go:248 | No label sorts before itself. |
| DayLabels.LexLessTransitive | api/reports/entry.go:248 | String order is transitive. |
| DayLabels.LexLessTotal | api/reports/entry.go:248 | Two different labels are ordered exactly one way. |
| Entries.SplitInDifferentDays | api/reports/entry.go:64-75 | Cuts iff the start's and stop's days of the month differ. The cut is at the next midnight; the first piece ends at 23:59:59 of the start's day. |
| Entries.SplitAfter9PM | api/reports/entry.go:77-91 | Cuts iff the start's hour < 21 ≤ the stop's hour, at 21:00 of the start's day. |
| Entries.SplitBefore6AM | api/reports/entry.go:93-108 | Cuts iff the start's hour < 6 ≤ the stop's hour, at 06:00 of the start's day. |
| Entries.SplitBeforeSaturdayNoon | api/reports/entry.go:110-129 | Cuts iff the start's day is a Saturday and the start's hour < 12 ≤ the stop's hour, at 12:00 of that day. |
| Entries.NextSplit | api/reports/entry.go:176-194 | No pieces iff no rule fires. Otherwise a cut whose boundary lies after the start, and no later than the stop when the entry is ordered. When the days of the month differ, the cut is at the next midnight. Otherwise it is at 21:00 if the 9 PM rule fires, else at 06:00 if the 6 AM rule fires, else at Saturday noon; this is the order the report tries the rules in. |
| Entries.CutAfterDayChange | api/reports/entry.go:71-72 | The midnight cut lies after the start, and within an ordered entry. |
| Entries.HourCutInside | api/reports/entry.go:78-88 | An hour cut lies after the start, and within an ordered entry. |
| Entries.CutLosesOneSecond | api/reports/entry.go:151-153 | The durations of a cut's two halves add up to the entry's duration less one second. |
| Entries.IsNightly | api/reports/entry.go:135-137 | Nightly iff the stop's hour is ≤ 6 or ≥ 21. |
| Entries.IsWeekend | api/reports/entry.go:147-149 | True iff the start falls on Monday to Friday. |
| Entries.IsWorkday | api/reports/entry.go:139-145 | True iff the start is Monday to Friday, or the stop is on a Saturday before 12:00. |
| Entries.FormatDaySameDay | api/reports/entry.go:155-157 | For four-digit years, two entries share a label iff they start on the same day. |
| Segments.SplitWeight | api/reports/entry.go:172-194 | Each cut splits an entry's weight between its halves, less one, so the stack loop terminates for every entry. |
| Segments.HorizonOfLaterHalf | api/reports/entry.go:71-72 | The later half of an inverted entry keeps the bound on the day rule's walk. |
| Segments.Pieces | api/reports/entry.go:169-215 | At least one piece is filed for every entry. |
| Segments.PiecesOfTerminal | api/reports/entry.go:196-200 | An entry no rule cuts is filed as it is. |
| Segments.PiecesOfCut | api/reports/entry.go:176-178 | A cut entry files its later half's pieces, then its earlier half's. |
| Segments.PiecesAreFinal | api/reports/entry.go:176-200 | Every filed piece satisfies no rule and keeps the entry's project, tags and description. |
| Segments.PiecesTile | api/reports/entry.go:70-72 | The first filed piece ends at the stop and the last begins at the start. Each piece begins one second after the next filed one ends. |
| Segments.PiecesOrdered | api/reports/entry.go:86-87 | Every piece but the first filed is ordered; the first is ordered iff the entry is. |
| Segments.PiecesInside | api/reports/entry.go:64-129 | Every piece of an ordered entry is ordered and lies between the entry's start and stop. |
| Segments.PiecesCover | api/reports/entry.go:70-72 | Every second of an ordered entry lies in one of its pieces. |
| Segments.TerminalWithinOneDay | api/reports/entry.go:64-67 | A piece no rule cuts that is ordered, and whose stop's day is fewer than 28 days after its start's day, starts and stops on the same calendar day. |
| Segments.PiecesWithinOneDay | api/reports/entry.go:176-200 | For an ordered entry whose stop's day is fewer than 28 days after its start's day, each filed piece starts and stops on one calendar day, and that day lies between the entry's start day and stop day. So the label of the piece's start, under which it is filed, holds for the whole piece. |
| Segments.PiecesCoverDays | api/reports/entry.go:176-200 | For such an entry, every calendar day from its start's to its stop's has a filed piece that starts on it. An entry crossing N midnights therefore has a piece starting on each of its N + 1 days. |
| Segments.PiecesConserveDuration | api/reports/entry.go:210-214 | The filed durations add up to the entry's duration less one second per cut (pieces − 1). |
| Segments.PushTwo | api/reports/entry.go:177 | Replacing a stack's top by its halves keeps what remains to be filed and lightens the stack. |
| Segments.PushHalves | api/reports/entry.go:173-178 | Popping an entry that a rule cuts and pushing its halves keeps what remains to be filed, one unit lighter. |
| Segments.PopTerminal | api/reports/entry.go:173-174 | Popping an entry no rule cuts files exactly that entry next, and lightens the stack. |
| Segments.SumDurationsAppend | api/reports/entry.go:210-214 | Durations add up over concatenation. |
| Ledger.Account | api/reports/entry.go:202-214 | The duration goes into exactly one of weekday/weekend, chosen by IsWorkday, and into the matching nightly total iff the piece is nightly. The other totals are unchanged. |
| Ledger.Index | api/reports/entry.go:196-200 | The piece is appended to its project's list for its label, creating both when missing. Every other list is unchanged. |
| Ledger.FileOne | api/reports/entry.go:196-214 | Filing one more piece after a sequence is one more step of each fold. |
| Ledger.AccountAllBuckets | api/reports/entry.go:202-214 | Each total grows by the durations of exactly the pieces that belong in it. |
| Ledger.AccountAllTotal | api/reports/entry.go:210-214 | Weekday plus weekend grows by the sum of all filed durations. |
| Ledger.FilingLosesOneSecondPerCut | api/reports/entry.go:169-216 | AddEntry (whose totals are AccountAll over Pieces(item)) grows weekday plus weekend by the entry's duration less one second per cut, with one cut fewer than pieces. |
| Ledger.AccountAllConcat | api/reports/entry.go:279-287 | Filing a + b is filing a, then b. |
| Ledger.IndexAllConcat | api/reports/entry.go:279-287 | Indexing a + b is indexing a, then b. |
| Ledger.IndexAllLookup | api/reports/entry.go:196-200 | Each list grows by exactly the pieces of its project and label, in filing order, and keeps what it held. |
| Ledger.WhereAppend | api/reports/entry.go:200 | Selecting from a sequence with one more piece selects that piece iff it qualifies. |
| Ledger.ProjectIdsAppend | api/reports/entry.go:196-198 | One more piece adds its project to the projects filed. |
| Ledger.IndexAllKeys | api/reports/entry.go:196-198 | The indexed projects are the ones there were plus the projects of the filed pieces. |
| Ordering.InsertByStart | api/reports/entry.go:254-256 | Inserting into a list sorted by start keeps it sorted and adds exactly that piece. |
| Ordering.SortByStart | api/reports/entry.go:254-256 | The result is sorted by start and is a permutation of the input. |
| Ordering.InsertLabel | api/reports/entry.go:244-248 | Inserting a new label into a strictly ascending list keeps it ascending and adds exactly that label. |
| Ordering.SortLabels | api/reports/entry.go:244-248 | A project's labels, each once, in strictly ascending string order. |
| Ordering.AscendingIsDistinct | api/reports/entry.go:244-248 | A strictly ascending list holds each label once. |
| Reports.ToEntry | api/reports/entry.go:45-53 | The entry keeps the fetched project, tags and description. Its duration is the fetched stop minus start, because the zone moves both instants alike. |
| Reports.TrySplits | api/reports/entry.go:176-194 | Trying the rules in the report's order gives exactly NextSplit. |
| Reports.EntryList.constructor | api/reports/entry.go:276-278 | A new list has zero totals and an empty index. |
| Reports.EntryList.AddEntry | api/reports/entry.go:169-216 | The totals and index become those after filing Pieces(item) in order. |
| Reports.EntryList.File | api/reports/entry.go:196-214 | Filing one piece: the totals after Account, the index after Index. |
| Reports.EntryList.GetProjectIDs | api/reports/entry.go:219-229 | Exactly the indexed projects other than 0, each once. |
| Reports.EntryList.GetSummaryWithProjectInformation | api/reports/entry.go:232-272 | The summary carries the totals and one section per indexed project, each once. Each section has the fetched name (or ""), its days in ascending label order, and each day's pieces sorted by start with their night marks. The stored lists are left sorted: same labels, permuted contents. |
| Reports.SummarizeProjects | api/reports/entry.go:239-269 | One faithful section per project of the index, each once; the index with every list sorted. |
| Reports.SectionsGrow | api/reports/entry.go:239-269 | Adding the section of a project not yet summarized keeps the sections distinct and faithful and covers that project. |
| Reports.SummarizeProject | api/reports/entry.go:244-256 | A project's section: its labels ascending, each day's pieces sorted by start. |
| Reports.SummarizeDays | api/reports/entry.go:250-266 | One section per label, in the given order, each listing the sorted pieces of that label. |
| Reports.DayLines | api/reports/entry.go:257-265 | One line per piece, in order, marked nightly iff the piece is. |
| Reports.CreateFromRawEntries | api/reports/entry.go:275-290 | A new list whose totals and index are those after filing each fetched entry's pieces once per "Extra" tag, in order. |
| Reports.FiledOnce | api/reports/entry.go:281-284 | An entry carrying "Extra" once is filed as its pieces, once. |
| Reports.UntaggedFilesNothing | api/reports/entry.go:280-286 | An entry without an "Extra" tag, or without tags, files nothing. |
| Reports.NoExtra | api/reports/entry.go:282 | Without an "Extra" tag the count of "Extra" tags is 0. |
| Reports.ExtraCountsOccurrences | api/reports/entry.go:281-284 | For every tag list, mixed or not, the count of "Extra" tags is the number of occurrences of "Extra" in it. |
| Reports.FiledPerExtraTag | api/reports/entry.go:279-287 | Each fetched entry is filed after the ones before it, once for each occurrence of "Extra" among its tags. |
| Fixtures.FixtureDates | api/reports/report_test.go:23-24 | Days 18215 and 18216 are 2019-11-15 and 2019-11-16. |
| Fixtures.CutAtMidnight | api/reports/report_test.go:23-24 | The test entry, Friday 17:03:12 to Saturday 11:16:03 local, is first cut at Saturday's midnight. |
| Fixtures.CutFridayAt9PM | api/reports/report_test.go:23 | Its Friday part is cut at 21:00. |
| Fixtures.CutSaturdayAt6AM | api/reports/report_test.go:24 | Its Saturday part is cut at 06:00. |
| Fixtures.FixtureLeavesAreFinal | api/reports/report_test.go:23-24 | The four resulting pieces are cut by no rule. |
| Fixtures.FixturePieces | api/reports/report_test.go:23-25 | The test entry is filed as four pieces: Saturday 06:00–11:16:03, Saturday 00:00–05:59:59, Friday 21:00–23:59:59, Friday 17:03:12–20:59:59. |
| Fixtures.FridayPieces | api/reports/report_test.go:23 | The Friday part is filed as its 21:00 piece, then its earlier piece. |
| Fixtures.SaturdayPieces | api/reports/report_test.go:24 | The Saturday part is filed as its 06:00 piece, then its earlier piece. |
| Fixtures.SaturdayMorningBuckets | api/reports/report_test.go:24 | Saturday until 11:16:03 is weekday work, and not nightly. |
| Fixtures.SaturdayNightBuckets | api/reports/report_test.go:24 | Saturday until 05:59:59 is weekday work, and nightly. |
| Fixtures.FridayNightBuckets | api/reports/report_test.go:23 | Friday from 21:00 is weekday work, and nightly. |
| Fixtures.FridayDayBuckets | api/reports/report_test.go:23 | Friday until 20:59:59 is weekday work, and not nightly. |
| Fixtures.FixtureFiled | api/reports/report_test.go:30 | Its one "Extra" tag files the four pieces once. |
| Fixtures.FixtureTotals | api/reports/report_test.go:23-30 | The list built from the test response holds 65568 s of weekday work, 32398 s of it nightly, and no weekend work. |
| Fixtures.OneProject | api/reports/report_test.go:20 | Pieces that all belong to one project are filed under that project only. |
| Fixtures.FixtureProjects | api/reports/report_test.go:20 | The index built from the test response holds project 123 only. |
| Fixtures.FixtureSummary | api/reports/report_test.go:93-103 | Summarizing the list built from the test response, with project 123 named "fakeproject", gives the fixture's totals and exactly one project section: project 123, named "fakeproject". |
| Fixtures.FixtureLabels | api/reports/report_test.go:23-24 | The Friday pieces are labelled "Friday, 15/11/2019" and the Saturday pieces "Saturday, 16/11/2019". |
| Fixtures.FridayLabel | api/reports/report_test.go:23 | Any entry starting on day 18215 is labelled "Friday, 15/11/2019". |
| Fixtures.SaturdayLabel | api/reports/report_test.go:24 | Any entry starting on day 18216 is labelled "Saturday, 16/11/2019". |
| Fixtures.FixtureNumbers | api/reports/entry.go:155-157 | The zero-padded fields 15, 16, 11 and 2019 print as "15", "16", "11" and "2019". |
| Fixtures.OctoberDate | api/reports/entry.go:65 | Day 18184 is 2019-10-15. |
| Fixtures.ThursdayDate | api/reports/entry.go:155-157 | Day 18214 is 2019-11-14. |
| Fixtures.ThursdayLabel | api/reports/entry.go:155-157 | Any entry starting on day 18214 is labelled "Thursday, 14/11/2019". |
| Fixtures.MonthLongDays | api/reports/entry.go:65 | The month-long entry starts and stops on the 15th. |
| Fixtures.MonthLongHours | api/reports/entry.go:80-81 | The month-long entry stops at an earlier hour (9) than it starts (10). |
| Fixtures.NoLaterHourNotCut | api/reports/entry.go:64-129 | An entry whose stop shows its start's day of the month, at an hour no later than its start's, is filed whole, however far apart the two are. |
| Fixtures.MonthLongIsNotCut | api/reports/entry.go:64-67 | An entry of 31 days less an hour, from 2019-10-15 10:00 to 2019-11-15 09:00, is filed as a single piece. |
| Fixtures.FebruaryDates | api/reports/entry.go:65 | Days 17928 and 17956 are 2019-02-01 and 2019-03-01. |
| Fixtures.FebruaryLongFields | api/reports/entry.go:65-66 | The February entry starts on the 1st at hour 23 and stops on the 1st at hour 1, 28 calendar days later. |
| Fixtures.FebruaryLongIsNotCut | api/reports/entry.go:64-129 | An entry lasting less than 28 days, from 2019-02-01 23:00 to 2019-03-01 01:00, is filed as one piece whose stop is 28 calendar days after its start. |
| Fixtures.LabelsSortByWeekdayName | api/reports/entry.go:248 | A piece started on Friday 2019-11-15 starts after one started on Thursday 2019-11-14, yet its label sorts first. |

## Left out

- Parsing of the fetched RFC 3339 strings (`api/reports/entry.go:11-14`) is not modelled. The parse error is dropped there, and a malformed time becomes Go's zero time. `Reports.RawEntry` carries instants already read as whole Unix seconds, so the fractions of a second that RFC 3339 times may carry, and that Go's `time.Time` keeps, are not modelled.
- Totals are integer seconds, not `float64` hours. The division by 3600 and the rounding of floating-point sums are not modelled, nor is the two-decimal rendering with `strconv.FormatFloat`.
- Reports.EntryList.GetSummaryWithProjectInformation: returns the summary as structured sections (totals, names, labels, pieces with their night mark), not the text. The text layout, including the `time.Kitchen` rendering of `toAMFormat` (`api/reports/entry.go:131-133`), is not modelled.
- Go's map iteration order is unspecified. The order of project ids and of project sections is arbitrary in the model too: a choice from the remaining set, with contracts stating contents and distinctness only.
- `sort.Slice` is not stable. Among pieces with equal starts any order is allowed, and the contract states only "sorted by start and a permutation".
- A nil tag list and an empty one are the same (`seq<string>`); both file nothing, as in the source.
- Project ids are unbounded integers rather than `int64`. Instants are unbounded as well, so the range limits of Go's `time` package are not modelled. In particular, `Time.Sub` in `getDuration` (`api/reports/entry.go:152`) saturates at about ±292 years. An entry whose time failed to parse holds Go's zero time (year 1), so pairing it with a 2019 time adds Go's clamped minimum or maximum `Duration`; the model adds the full difference.
- An `EntryList` whose index map is nil (a zero value not built by `CreateFromRawEntries`) would panic on the first `AddEntry` in Go. The model's list always starts with an empty index.
- The `Tags` slice is shared between an entry and its pieces in Go (a shallow copy). Nothing mutates it, so the model copies the value.
- Fetching entries and projects over HTTP, basic authentication, JSON decoding and the HTTP handler (`api/reports/toggl.go`, `api/requests/requests.go`, `api/index.go`, `api/reports/report.go`) are not part of this model, nor is the test's TLS stub server. The fixture lemmas take the test response's entry as data.
