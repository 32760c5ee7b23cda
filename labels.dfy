/**
 * The day label under which the report files an entry: its start date in
 * Go's layout "Monday, 02/01/2006", that is the English weekday name, a
 * comma and a space, then day/month/year with the day and month zero-padded
 * to two digits and the year to four.  The numeric fields follow Go's
 * appendInt: a minus sign for a negative value, then the digits of its
 * magnitude, padded with zeros to the field width.
 *
 * Labels are compared as Go compares strings, byte by byte; every character
 * of a label is ASCII, so comparing characters is comparing bytes.
 */
module DayLabels {
  import Calendar

  const WeekdayNames: seq<string> :=
    ["Sunday", "Monday", "Tuesday", "Wednesday", "Thursday", "Friday", "Saturday"]

  function Digit(n: int): char
    requires 0 <= n < 10
  {
    ('0' as int + n) as char
  }

  predicate IsDigit(c: char)
  {
    '0' <= c <= '9'
  }

  /** The decimal digits of u, most significant first, with no padding. */
  function Decimal(u: nat): (s: string)
    ensures 1 <= |s| && forall i :: 0 <= i < |s| ==> IsDigit(s[i])
    decreases u
  {
    if u < 10 then [Digit(u)] else Decimal(u / 10) + [Digit(u % 10)]
  }

  function Zeros(k: int): string
  {
    if k <= 0 then [] else seq(k, i => '0')
  }

  /** Go's appendInt(nil, x, width): sign, then the magnitude's digits zero-padded to width. */
  function AppendInt(x: int, width: nat): string
  {
    var u := if x < 0 then -x else x;
    var sign := if x < 0 then "-" else "";
    if width == 2 && u < 100 then
      sign + [Digit(u / 10), Digit(u % 10)]
    else if width == 4 && u < 10000 then
      sign + [Digit(u / 1000), Digit(u / 100 % 10), Digit(u / 10 % 10), Digit(u % 10)]
    else
      sign + Zeros(width - |Decimal(u)|) + Decimal(u)
  }

  /** The number a string of decimal digits denotes. */
  function Value(s: string): int
  {
    if s == [] then 0 else 10 * Value(s[..|s| - 1]) + (s[|s| - 1] as int - '0' as int)
  }

  /** The label of a civil date falling on the given weekday (Sunday = 0). */
  function Label(d: Calendar.Date, weekday: int): string
    requires 0 <= weekday < 7
  {
    WeekdayNames[weekday] + ", " + AppendInt(d.day, 2) + "/" + AppendInt(d.month, 2) + "/" + AppendInt(d.year, 4)
  }

  // ---------------------------------------------------------------------
  // Reading the numbers back
  // ---------------------------------------------------------------------

  lemma ValueAppend(s: string, c: char)
    ensures Value(s + [c]) == 10 * Value(s) + (c as int - '0' as int)
  {
    assert (s + [c])[..|s + [c]| - 1] == s;
  }

  /** Decimal is read back as the number it was made from. */
  lemma {:induction false} DecimalReadsBack(u: nat)
    ensures Value(Decimal(u)) == u
    decreases u
  {
    if u < 10 {
      ValueAppend([], Digit(u));
      assert [Digit(u)] == [] + [Digit(u)];
    } else {
      DecimalReadsBack(u / 10);
      ValueAppend(Decimal(u / 10), Digit(u % 10));
    }
  }

  /** Leading zeros do not change the value. */
  lemma {:induction false} LeadingZeros(k: nat, s: string)
    ensures Value(Zeros(k) + s) == Value(s)
    decreases |s|
  {
    if s == [] {
      ZerosValue(k);
      assert Zeros(k) + s == Zeros(k);
    } else {
      var t := s[..|s| - 1];
      var c := s[|s| - 1];
      assert s == t + [c];
      assert Zeros(k) + s == (Zeros(k) + t) + [c];
      ValueAppend(Zeros(k) + t, c);
      ValueAppend(t, c);
      LeadingZeros(k, t);
    }
  }

  lemma {:induction false} ZerosValue(k: nat)
    ensures Value(Zeros(k)) == 0
    decreases k
  {
    if k > 0 {
      assert Zeros(k) == Zeros(k - 1) + ['0'];
      ValueAppend(Zeros(k - 1), '0');
      ZerosValue(k - 1);
    }
  }

  /** A non-negative field is at least width long and reads back as x. */
  lemma AppendIntReadsBack(x: int, width: nat)
    requires 0 <= x
    ensures |AppendInt(x, width)| >= width
    ensures Value(AppendInt(x, width)) == x
  {
    if width == 2 && x < 100 {
      TwoDigitField(x);
    } else if width == 4 && x < 10000 {
      FourDigitField(x);
    } else {
      LongField(x, width);
    }
  }

  lemma TwoDigitField(x: int)
    requires 0 <= x < 100
    ensures |AppendInt(x, 2)| == 2 && Value(AppendInt(x, 2)) == x
  {
    assert AppendInt(x, 2) == [Digit(x / 10), Digit(x % 10)];
    TwoDigitsReadBack(x);
  }

  lemma FourDigitField(x: int)
    requires 0 <= x < 10000
    ensures |AppendInt(x, 4)| == 4 && Value(AppendInt(x, 4)) == x
  {
    assert AppendInt(x, 4) == [Digit(x / 1000), Digit(x / 100 % 10), Digit(x / 10 % 10), Digit(x % 10)];
    FourDigitsReadBack(x);
  }

  lemma LongField(x: int, width: nat)
    requires 0 <= x && !(width == 2 && x < 100) && !(width == 4 && x < 10000)
    ensures |AppendInt(x, width)| >= width && Value(AppendInt(x, width)) == x
  {
    var k := width - |Decimal(x)|;
    assert AppendInt(x, width) == Zeros(k) + Decimal(x);
    LeadingZeros(if k <= 0 then 0 else k, Decimal(x));
    DecimalReadsBack(x);
  }

  lemma TwoDigitsReadBack(x: int)
    requires 0 <= x < 100
    ensures Value([Digit(x / 10), Digit(x % 10)]) == x
  {
    var a, b := Digit(x / 10), Digit(x % 10);
    ValueAppend([], a);
    assert [a] == [] + [a];
    ValueAppend([a], b);
    assert [a] + [b] == [a, b];
  }

  lemma FourDigitsReadBack(x: int)
    requires 0 <= x < 10000
    ensures Value([Digit(x / 1000), Digit(x / 100 % 10), Digit(x / 10 % 10), Digit(x % 10)]) == x
  {
    var a, b, c, d := Digit(x / 1000), Digit(x / 100 % 10), Digit(x / 10 % 10), Digit(x % 10);
    ValueAppend([], a);
    assert [a] == [] + [a];
    ValueAppend([a], b);
    assert [a] + [b] == [a, b];
    ValueAppend([a, b], c);
    assert [a, b] + [c] == [a, b, c];
    ValueAppend([a, b, c], d);
    assert [a, b, c] + [d] == [a, b, c, d];
    FourDigitsArithmetic(x);
  }

  lemma FourDigitsArithmetic(x: int)
    requires 0 <= x < 10000
    ensures x == 10 * (10 * (10 * (x / 1000) + x / 100 % 10) + x / 10 % 10) + x % 10
  {
    var t := x / 10;
    var h := t / 10;
    assert x == 10 * t + x % 10;
    assert t == 10 * h + t % 10;
    assert x / 100 == h;
    assert x / 1000 == h / 10;
    assert h == 10 * (h / 10) + h % 10;
  }

  /** Within its fast path a field has exactly its width. */
  lemma AppendIntWidth(x: int, width: nat)
    requires 0 <= x && ((width == 2 && x < 100) || (width == 4 && x < 10000))
    ensures |AppendInt(x, width)| == width
  {
  }

  // ---------------------------------------------------------------------
  // A label names one date
  // ---------------------------------------------------------------------

  /** Dates with four-digit years have labels ending in the ten characters dd/mm/yyyy. */
  lemma LabelTail(d: Calendar.Date, w: int)
    requires 0 <= w < 7 && Calendar.ValidDate(d) && 0 <= d.year <= 9999
    ensures var l := Label(d, w);
      |l| >= 10 &&
      Value(l[|l| - 10..|l| - 8]) == d.day && l[|l| - 8] == '/' &&
      Value(l[|l| - 7..|l| - 5]) == d.month && l[|l| - 5] == '/' &&
      Value(l[|l| - 4..]) == d.year
  {
    var dd, mm, yy := AppendInt(d.day, 2), AppendInt(d.month, 2), AppendInt(d.year, 4);
    AppendIntWidth(d.day, 2);
    AppendIntWidth(d.month, 2);
    AppendIntWidth(d.year, 4);
    AppendIntReadsBack(d.day, 2);
    AppendIntReadsBack(d.month, 2);
    AppendIntReadsBack(d.year, 4);
    var head := WeekdayNames[w] + ", ";
    var l := Label(d, w);
    assert l == head + (dd + "/" + mm + "/" + yy);
    var tail := dd + "/" + mm + "/" + yy;
    assert |tail| == 10;
    assert l[|l| - 10..] == tail;
    assert tail[0..2] == dd && tail[3..5] == mm && tail[6..] == yy;
    assert l[|l| - 10..|l| - 8] == tail[0..2];
    assert l[|l| - 7..|l| - 5] == tail[3..5];
    assert l[|l| - 4..] == tail[6..];
  }

  /** Two dates with four-digit years share a label only if they are the same date. */
  lemma LabelDeterminesDate(d1: Calendar.Date, w1: int, d2: Calendar.Date, w2: int)
    requires 0 <= w1 < 7 && Calendar.ValidDate(d1) && 0 <= d1.year <= 9999
    requires 0 <= w2 < 7 && Calendar.ValidDate(d2) && 0 <= d2.year <= 9999
    requires Label(d1, w1) == Label(d2, w2)
    ensures d1 == d2
  {
    LabelTail(d1, w1);
    LabelTail(d2, w2);
  }

  // ---------------------------------------------------------------------
  // String order
  // ---------------------------------------------------------------------

  /** Go's a < b on strings: byte-wise lexicographic order. */
  predicate LexLess(a: string, b: string)
  {
    if a == [] then b != []
    else if b == [] then false
    else if a[0] != b[0] then a[0] < b[0]
    else LexLess(a[1..], b[1..])
  }

  lemma {:induction false} LexLessIrreflexive(a: string)
    ensures !LexLess(a, a)
    decreases |a|
  {
    if a != [] {
      LexLessIrreflexive(a[1..]);
    }
  }

  lemma {:induction false} LexLessTransitive(a: string, b: string, c: string)
    requires LexLess(a, b) && LexLess(b, c)
    ensures LexLess(a, c)
    decreases |a|
  {
    if a != [] && b != [] && c != [] && a[0] == b[0] && b[0] == c[0] {
      LexLessTransitive(a[1..], b[1..], c[1..]);
    }
  }

  /** Two different strings are ordered one way or the other, and never both. */
  lemma {:induction false} LexLessTotal(a: string, b: string)
    requires a != b
    ensures LexLess(a, b) != LexLess(b, a)
    decreases |a|
  {
    if a != [] && b != [] && a[0] == b[0] {
      assert a == [a[0]] + a[1..] && b == [b[0]] + b[1..];
      LexLessTotal(a[1..], b[1..]);
    }
  }
}
