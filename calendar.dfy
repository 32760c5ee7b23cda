/**
 * The proleptic Gregorian calendar, as Go's time package computes it for a
 * day count: the year, month and day of month of the n-th day after
 * 1970-01-01.  Internally days are counted from 0000-03-01, in "March-based"
 * years that start on 1 March so that the leap day is the last day of a year;
 * a March-based year is split into cycles of 400, 100, 4 and 1 years.
 */
module Calendar {

  const DaysPer400Years := 146097
  const DaysPer100Years := 36524
  const DaysPer4Years := 1461

  /** Days from 0000-03-01 to 1970-01-01. */
  const EpochShift := 719468

  datatype Date = Date(year: int, month: int, day: int)

  predicate IsLeapYear(year: int)
  {
    year % 4 == 0 && (year % 100 != 0 || year % 400 == 0)
  }

  function DaysInMonth(year: int, month: int): int
  {
    if month == 2 then (if IsLeapYear(year) then 29 else 28)
    else if month == 4 || month == 6 || month == 9 || month == 11 then 30
    else 31
  }

  predicate ValidDate(d: Date)
  {
    1 <= d.month <= 12 && 1 <= d.day <= DaysInMonth(d.year, d.month)
  }

  /** Days from 0000-03-01 to 1 March of March-based year y. */
  function MarchYearStart(y: int): int
  {
    365 * y + y / 4 - y / 100 + y / 400
  }

  /** Offset of the first day of month mp (0 = March, ..., 11 = February) in a March-based year. */
  function MonthOffset(mp: int): int
  {
    (153 * mp + 2) / 5
  }

  // ---------------------------------------------------------------------
  // Splitting a day count into cycles
  // ---------------------------------------------------------------------

  datatype Split = Split(count: int, rest: int)

  function Eras(z: int): (s: Split)
    ensures z == DaysPer400Years * s.count + s.rest && 0 <= s.rest < DaysPer400Years
  {
    Split(z / DaysPer400Years, z % DaysPer400Years)
  }

  /** The fourth century of an era is one day longer: its last day is a leap day. */
  function Centuries(doe: int): (s: Split)
    requires 0 <= doe < DaysPer400Years
    ensures doe == DaysPer100Years * s.count + s.rest
    ensures 0 <= s.count <= 3 && 0 <= s.rest <= DaysPer100Years
    ensures s.count < 3 ==> s.rest < DaysPer100Years
  {
    var c := if doe / DaysPer100Years == 4 then 3 else doe / DaysPer100Years;
    Split(c, doe - DaysPer100Years * c)
  }

  function Quads(doc: int): (s: Split)
    requires 0 <= doc <= DaysPer100Years
    ensures doc == DaysPer4Years * s.count + s.rest
    ensures 0 <= s.count <= 24 && 0 <= s.rest < DaysPer4Years
  {
    Split(doc / DaysPer4Years, doc % DaysPer4Years)
  }

  /** The fourth year of a four-year cycle is one day longer. */
  function Years(doq: int): (s: Split)
    requires 0 <= doq < DaysPer4Years
    ensures doq == 365 * s.count + s.rest
    ensures 0 <= s.count <= 3 && 0 <= s.rest <= 365
    ensures s.count < 3 ==> s.rest < 365
  {
    var yy := if doq / 365 == 4 then 3 else doq / 365;
    Split(yy, doq - 365 * yy)
  }

  datatype YearDay = YearDay(year: int, dayOfYear: int)

  /** The March-based year holding day z (counted from 0000-03-01) and z's offset in it. */
  function SplitYears(z: int): (yd: YearDay)
    ensures 0 <= yd.dayOfYear <= 365
  {
    var e := Eras(z);
    var c := Centuries(e.rest);
    var q := Quads(c.rest);
    var y := Years(q.rest);
    YearDay(400 * e.count + 100 * c.count + 4 * q.count + y.count, y.rest)
  }

  /** The month (0 = March) holding day doy of a March-based year. */
  function MonthOfYear(doy: int): (mp: int)
    requires 0 <= doy <= 365
    ensures 0 <= mp <= 11
    ensures MonthOffset(mp) <= doy
    ensures mp < 11 ==> doy < MonthOffset(mp + 1)
  {
    (5 * doy + 2) / 153
  }

  // ---------------------------------------------------------------------
  // Day count <-> civil date
  // ---------------------------------------------------------------------

  /** The civil date of the n-th day after 1970-01-01 (negative n: before it). */
  function CivilFromDays(n: int): Date
  {
    var yd := SplitYears(n + EpochShift);
    var mp := MonthOfYear(yd.dayOfYear);
    var month := if mp < 10 then mp + 3 else mp - 9;
    Date(if month <= 2 then yd.year + 1 else yd.year, month, yd.dayOfYear - MonthOffset(mp) + 1)
  }

  /** Every day count names a real date: a month 1..12 and a day within that month's length. */
  lemma CivilFromDaysValid(n: int)
    ensures ValidDate(CivilFromDays(n))
  {
    var yd := SplitYears(n + EpochShift);
    SplitYearsBracket(n + EpochShift);
    YearLengthIsLeap(yd.year);
  }

  /** A day of the month is between 1 and 31. */
  lemma DayOfMonthRange(n: int)
    ensures 1 <= DayOfMonth(n) <= 31
  {
    CivilFromDaysValid(n);
  }

  /** The number of days from 1970-01-01 to the given civil date. */
  function DaysFromCivil(d: Date): int
  {
    var y := if d.month <= 2 then d.year - 1 else d.year;
    var mp := if d.month > 2 then d.month - 3 else d.month + 9;
    MarchYearStart(y) + MonthOffset(mp) + d.day - 1 - EpochShift
  }

  function DayOfMonth(n: int): int
  {
    CivilFromDays(n).day
  }

  /** CivilFromDays loses nothing: the day count is recovered from the date. */
  lemma DaysFromCivilInverse(n: int)
    ensures DaysFromCivil(CivilFromDays(n)) == n
  {
    SplitYearsBracket(n + EpochShift);
  }

  /** The weekday of a date (Sunday = 0) by Sakamoto's rule: January and February count
      with the year before, and each month has a fixed shift. */
  function DayOfWeek(d: Date): (w: int)
    requires 1 <= d.month <= 12
    ensures 0 <= w < 7
  {
    var y := if d.month < 3 then d.year - 1 else d.year;
    (y + y / 4 - y / 100 + y / 400 + MonthShift(d.month) + d.day) % 7
  }

  function MonthShift(m: int): int
    requires 1 <= m <= 12
  {
    [0, 3, 2, 5, 0, 3, 5, 1, 4, 6, 2, 4][m - 1]
  }

  /** Day 0 (1970-01-01) was a Thursday and the weekday advances by one each day: that
      count agrees with the weekday read off the date. */
  lemma DayOfWeekOfDays(d: Date)
    requires 1 <= d.month <= 12
    ensures (DaysFromCivil(d) + 4) % 7 == DayOfWeek(d)
  {
    var y := if d.month <= 2 then d.year - 1 else d.year;
    var mp := if d.month > 2 then d.month - 3 else d.month + 9;
    var q := MonthShiftOfOffset(d.month);
    var sum := y + y / 4 - y / 100 + y / 400 + MonthShift(d.month) + d.day;
    assert DaysFromCivil(d) + 4 == sum + 7 * (52 * y - 102781 + q);
    SevenfoldShift(sum, 52 * y - 102781 + q);
  }

  /** A month's shift is its offset in the March-based year plus two, modulo 7. */
  lemma MonthShiftOfOffset(m: int) returns (q: int)
    requires 1 <= m <= 12
    ensures MonthOffset(if m > 2 then m - 3 else m + 9) + 2 == MonthShift(m) + 7 * q
  {
    q := (MonthOffset(if m > 2 then m - 3 else m + 9) + 2 - MonthShift(m)) / 7;
  }

  lemma SevenfoldShift(a: int, k: int)
    ensures (a + 7 * k) % 7 == a % 7
  {
  }

  /** Distinct days have distinct civil dates. */
  lemma CivilFromDaysInjective(a: int, b: int)
    requires CivilFromDays(a) == CivilFromDays(b)
    ensures a == b
  {
    DaysFromCivilInverse(a);
    DaysFromCivilInverse(b);
  }

  // ---------------------------------------------------------------------
  // Arithmetic of the cycles
  // ---------------------------------------------------------------------

  lemma EraShift(era: int, yoe: int)
    requires 0 <= yoe < 400
    ensures MarchYearStart(400 * era + yoe) == DaysPer400Years * era + 365 * yoe + yoe / 4 - yoe / 100
  {
    var y := 400 * era + yoe;
    assert y / 4 == 100 * era + yoe / 4;
    assert y / 100 == 4 * era + yoe / 100;
    assert y / 400 == era;
  }

  lemma CenturyShift(c: int, yoc: int)
    requires 0 <= c < 4 && 0 <= yoc < 100
    ensures var yoe := 100 * c + yoc;
      365 * yoe + yoe / 4 - yoe / 100 == DaysPer100Years * c + 365 * yoc + yoc / 4
  {
    var yoe := 100 * c + yoc;
    assert yoe / 4 == 25 * c + yoc / 4;
    assert yoe / 100 == c;
  }

  lemma EraEnd(era: int)
    ensures MarchYearStart(400 * era + 400) == DaysPer400Years * (era + 1)
  {
    var y := 400 * era + 400;
    assert y / 4 == 100 * era + 100;
    assert y / 100 == 4 * era + 4;
    assert y / 400 == era + 1;
  }

  /** The start of March-based year 400*era + 100*c + 4*q + y, as a sum of whole cycles. */
  lemma CycleStart(era: int, c: int, q: int, y: int)
    requires 0 <= c < 4 && 0 <= q < 25 && 0 <= y < 4
    ensures MarchYearStart(400 * era + 100 * c + 4 * q + y)
         == DaysPer400Years * era + DaysPer100Years * c + DaysPer4Years * q + 365 * y
  {
    EraShift(era, 100 * c + 4 * q + y);
    CenturyShift(c, 4 * q + y);
  }

  lemma SplitYearsLower(z: int)
    ensures MarchYearStart(SplitYears(z).year) + SplitYears(z).dayOfYear == z
  {
    var e := Eras(z);
    var c := Centuries(e.rest);
    var q := Quads(c.rest);
    var y := Years(q.rest);
    CycleStart(e.count, c.count, q.count, y.count);
  }

  lemma SplitYearsUpper(z: int)
    ensures z < MarchYearStart(SplitYears(z).year + 1)
  {
    var e := Eras(z);
    var c := Centuries(e.rest);
    var q := Quads(c.rest);
    var y := Years(q.rest);
    var era, cc, qq, yy := e.count, c.count, q.count, y.count;
    CycleStart(era, cc, qq, yy);
    var next := 400 * era + 100 * cc + 4 * qq + yy + 1;
    assert SplitYears(z).year + 1 == next;
    if yy < 3 {
      CycleStart(era, cc, qq, yy + 1);
    } else if qq < 24 {
      CycleStart(era, cc, qq + 1, 0);
    } else if cc < 3 {
      CycleStart(era, cc + 1, 0, 0);
    } else {
      assert next == 400 * era + 400;
      EraEnd(era);
    }
  }

  /** SplitYears(z) names the March-based year whose days include z. */
  lemma SplitYearsBracket(z: int)
    ensures MarchYearStart(SplitYears(z).year) + SplitYears(z).dayOfYear == z
    ensures z < MarchYearStart(SplitYears(z).year + 1)
  {
    SplitYearsLower(z);
    SplitYearsUpper(z);
  }

  /** Writes a March-based year as whole eras, centuries, four-year cycles and years. */
  lemma YearParts(y: int) returns (era: int, c: int, q: int, yy: int)
    ensures y == 400 * era + 100 * c + 4 * q + yy
    ensures 0 <= c < 4 && 0 <= q < 25 && 0 <= yy < 4
  {
    era := y / 400;
    var yoe := y % 400;
    c := yoe / 100;
    q := (yoe % 100) / 4;
    yy := yoe % 4;
  }

  lemma LeapOfParts(era: int, c: int, q: int, yy: int)
    requires 0 <= c < 4 && 0 <= q < 25 && 0 <= yy < 4
    ensures var x := 400 * era + 100 * c + 4 * q + yy + 1;
      IsLeapYear(x) <==> (yy == 3 && (q < 24 || c == 3))
  {
    var x := 400 * era + 100 * c + 4 * q + yy + 1;
    if yy < 3 {
      NotMultipleOf4(100 * era + 25 * c + q, yy + 1);
    } else if q < 24 {
      assert x == 4 * (100 * era + 25 * c + q + 1);
      NotMultipleOf100(4 * era + c, 4 * (q + 1));
    } else if c < 3 {
      assert x == 100 * (4 * era + c + 1);
      NotMultipleOf400(era, 100 * (c + 1));
    } else {
      assert x == 400 * (era + 1);
    }
  }

  lemma NotMultipleOf4(a: int, r: int)
    requires 0 < r < 4
    ensures (4 * a + r) % 4 == r
  {
  }

  lemma NotMultipleOf100(a: int, r: int)
    requires 0 < r < 100 && r % 4 == 0
    ensures (100 * a + r) % 4 == 0 && (100 * a + r) % 100 == r
  {
    assert 100 * a + r == 4 * (25 * a + r / 4);
  }

  lemma NotMultipleOf400(a: int, r: int)
    requires 0 < r < 400 && r % 100 == 0
    ensures (400 * a + r) % 100 == 0 && (400 * a + r) % 400 == r
  {
  }

  /** A March-based year y has 366 days exactly when the February it ends with is a leap February. */
  lemma YearLengthIsLeap(y: int)
    ensures MarchYearStart(y + 1) - MarchYearStart(y) == if IsLeapYear(y + 1) then 366 else 365
  {
    var era, cc, qq, yy := YearParts(y);
    CycleStart(era, cc, qq, yy);
    LeapOfParts(era, cc, qq, yy);
    if yy < 3 {
      CycleStart(era, cc, qq, yy + 1);
    } else if qq < 24 {
      CycleStart(era, cc, qq + 1, 0);
    } else if cc < 3 {
      CycleStart(era, cc + 1, 0, 0);
    } else {
      EraEnd(era);
    }
  }

  // ---------------------------------------------------------------------
  // Months as one running count
  // ---------------------------------------------------------------------

  /** First day (counted from 0000-03-01) of month m, counting months from March of year 0. */
  function MonthStart(m: int): int
  {
    MarchYearStart(m / 12) + MonthOffset(m % 12)
  }

  lemma MonthParts(y: int, mp: int)
    requires 0 <= mp < 12
    ensures (12 * y + mp) / 12 == y && (12 * y + mp) % 12 == mp
  {
  }

  lemma MonthOffsetValues()
    ensures MonthOffset(0) == 0 && MonthOffset(1) == 31 && MonthOffset(2) == 61
    ensures MonthOffset(3) == 92 && MonthOffset(4) == 122 && MonthOffset(5) == 153
    ensures MonthOffset(6) == 184 && MonthOffset(7) == 214 && MonthOffset(8) == 245
    ensures MonthOffset(9) == 275 && MonthOffset(10) == 306 && MonthOffset(11) == 337
  {
  }

  /** Day z (counted from 0000-03-01) lies in some month m, and its day of month is its
      offset in that month plus one. */
  lemma MonthContaining(z: int) returns (m: int)
    ensures MonthStart(m) <= z < MonthStart(m + 1)
    ensures DayOfMonth(z - EpochShift) == z - MonthStart(m) + 1
  {
    var yd := SplitYears(z);
    var mp := MonthOfYear(yd.dayOfYear);
    m := 12 * yd.year + mp;
    assert z - EpochShift + EpochShift == z;
    SplitYearsBracket(z);
    MonthParts(yd.year, mp);
    if mp < 11 {
      MonthParts(yd.year, mp + 1);
    } else {
      MonthParts(yd.year + 1, 0);
      MonthOffsetValues();
    }
  }

  /** Months have 28 to 31 days; a month shorter than 31 days is followed by one of 31 days. */
  lemma MonthLength(m: int)
    ensures 28 <= MonthStart(m + 1) - MonthStart(m) <= 31
    ensures MonthStart(m + 1) - MonthStart(m) < 31 ==> MonthStart(m + 1 + 1) - MonthStart(m + 1) == 31
  {
    if m % 12 < 10 {
      MonthLengthMarchToDecember(m);
    } else if m % 12 == 10 {
      MonthLengthJanuary(m);
    } else {
      MonthLengthFebruary(m);
    }
  }

  lemma MonthLengthMarchToDecember(m: int)
    requires m % 12 < 10
    ensures 28 <= MonthStart(m + 1) - MonthStart(m) <= 31
    ensures MonthStart(m + 1) - MonthStart(m) < 31 ==> MonthStart(m + 1 + 1) - MonthStart(m + 1) == 31
  {
    var y, mp := m / 12, m % 12;
    MonthOffsetValues();
    MonthParts(y, mp + 1);
    MonthParts(y, mp + 2);
  }

  lemma MonthLengthJanuary(m: int)
    requires m % 12 == 10
    ensures MonthStart(m + 1) - MonthStart(m) == 31
  {
    var y := m / 12;
    MonthOffsetValues();
    MonthParts(y, 11);
  }

  lemma MonthLengthFebruary(m: int)
    requires m % 12 == 11
    ensures 28 <= MonthStart(m + 1) - MonthStart(m) <= 29
    ensures MonthStart(m + 1 + 1) - MonthStart(m + 1) == 31
  {
    var y := m / 12;
    MonthOffsetValues();
    MonthParts(y + 1, 0);
    MonthParts(y + 1, 1);
    YearLengthIsLeap(y);
  }

  lemma {:induction false} MonthStartIncreasing(a: int, b: int)
    requires a < b
    ensures MonthStart(a + 1) <= MonthStart(b)
    decreases b - a
  {
    if a + 1 < b {
      MonthLength(a + 1);
      MonthStartIncreasing(a + 1, b);
    }
  }

  /** Every day lies in exactly one month. */
  lemma MonthUnique(z: int, m1: int, m2: int)
    requires MonthStart(m1) <= z < MonthStart(m1 + 1)
    requires MonthStart(m2) <= z < MonthStart(m2 + 1)
    ensures m1 == m2
  {
    if m1 < m2 {
      MonthStartIncreasing(m1, m2);
    } else if m2 < m1 {
      MonthStartIncreasing(m2, m1);
    }
  }

  /** The j-th day of month m has day of month j + 1. */
  lemma DayInMonth(m: int, j: int)
    requires 0 <= j < MonthStart(m + 1) - MonthStart(m)
    ensures DayOfMonth(MonthStart(m) + j - EpochShift) == j + 1
  {
    var z := MonthStart(m) + j;
    var m2 := MonthContaining(z);
    MonthUnique(z, m, m2);
  }

  /** Inside month m, the day of month counts up from 1 at the month's first day. */
  lemma MonthDays(m: int)
    ensures forall x :: MonthStart(m) <= x + EpochShift < MonthStart(m + 1) ==>
      DayOfMonth(x) == x + EpochShift - MonthStart(m) + 1
  {
    forall x | MonthStart(m) <= x + EpochShift < MonthStart(m + 1)
      ensures DayOfMonth(x) == x + EpochShift - MonthStart(m) + 1
    {
      DayInMonth(m, x + EpochShift - MonthStart(m));
      assert MonthStart(m) + (x + EpochShift - MonthStart(m)) - EpochShift == x;
    }
  }

  /** The month around day n and the two after it, given by their first days. */
  lemma MonthsAround(n: int) returns (s0: int, s1: int, s2: int, s3: int)
    ensures s0 <= n + EpochShift < s1
    ensures 28 <= s1 - s0 <= 31 && 28 <= s2 - s1 <= 31
    ensures s2 - s1 < 31 ==> s3 - s2 == 31
    ensures forall x :: s0 <= x + EpochShift < s1 ==> DayOfMonth(x) == x + EpochShift - s0 + 1
    ensures forall x :: s1 <= x + EpochShift < s2 ==> DayOfMonth(x) == x + EpochShift - s1 + 1
    ensures forall x :: s2 <= x + EpochShift < s3 ==> DayOfMonth(x) == x + EpochShift - s2 + 1
  {
    var z := n + EpochShift;
    assert z - EpochShift == n;
    var m := MonthContaining(z);
    MonthLength(m);
    MonthLength(m + 1);
    MonthDays(m);
    MonthDays(m + 1);
    MonthDays(m + 1 + 1);
    s0, s1, s2, s3 := MonthStart(m), MonthStart(m + 1), MonthStart(m + 1 + 1), MonthStart(m + 1 + 1 + 1);
  }

  /** Two days fewer than 28 days apart never share a day of the month. */
  lemma DayOfMonthDiffers(n: int, k: int)
    requires 0 < k < 28
    ensures DayOfMonth(n + k) != DayOfMonth(n)
  {
    var s0, s1, s2, s3 := MonthsAround(n);
    assert DayOfMonth(n) == n + EpochShift - s0 + 1;
  }

  /** Whatever day n is, any day of month d in 1..31 comes round again within 92 days. */
  lemma DayOfMonthRecurs(n: int, d: int) returns (k: int)
    requires 1 <= d <= 31
    ensures 0 <= k < 92 && DayOfMonth(n + k) == d
  {
    var s0, s1, s2, s3 := MonthsAround(n);
    if n + EpochShift - s0 + 1 <= d <= s1 - s0 {
      k := s0 + d - 1 - EpochShift - n;
    } else if d <= s2 - s1 {
      k := s1 + d - 1 - EpochShift - n;
    } else {
      k := s2 + d - 1 - EpochShift - n;
    }
  }

  // ---------------------------------------------------------------------
  // Waiting for a day of the month
  // ---------------------------------------------------------------------

  /** The first k below bound such that f(n + k) == d, or bound if there is none. */
  function FirstWith(f: int -> int, n: int, d: int, bound: nat): (k: nat)
    ensures k <= bound
    decreases bound
  {
    if bound == 0 || f(n) == d then 0 else 1 + FirstWith(f, n + 1, d, bound - 1)
  }

  lemma {:induction false} FirstWithIsFirst(f: int -> int, n: int, d: int, bound: nat, j: int)
    requires n <= j < n + bound && f(j) == d
    ensures n + FirstWith(f, n, d, bound) <= j
    ensures f(n + FirstWith(f, n, d, bound)) == d
    ensures forall i :: n <= i < n + FirstWith(f, n, d, bound) ==> f(i) != d
    decreases bound
  {
    if f(n) != d {
      FirstWithIsFirst(f, n + 1, d, bound - 1, j);
    }
  }

  /** Two bounds that both reach a match give the same first match. */
  lemma FirstWithAnyBound(f: int -> int, n: int, d: int, b1: nat, b2: nat, j: int)
    requires n <= j < n + b1 && n <= j < n + b2 && f(j) == d
    ensures FirstWith(f, n, d, b1) == FirstWith(f, n, d, b2)
  {
    FirstWithIsFirst(f, n, d, b1, j);
    FirstWithIsFirst(f, n, d, b2, j);
  }

  /** How many days after day n the day of month is next d (0 when it already is). */
  function DaysUntil(n: int, d: int): nat
  {
    FirstWith(DayOfMonth, n, d, 92)
  }

  /** The wait is over on a day whose day of month is d. */
  lemma DaysUntilDone(n: int, d: int)
    requires DayOfMonth(n) == d
    ensures DaysUntil(n, d) == 0
  {
  }

  /** Waiting from the next day takes one day less, unless the wait is already over. */
  lemma DaysUntilStep(n: int, d: int)
    requires 1 <= d <= 31 && DayOfMonth(n) != d
    ensures DaysUntil(n, d) >= 1 && DaysUntil(n + 1, d) == DaysUntil(n, d) - 1
  {
    var k := DayOfMonthRecurs(n, d);
    var j := n + k;
    assert k != 0;
    FirstWithAnyBound(DayOfMonth, n + 1, d, 91, 92, j);
  }
}
