/**
 Timestamps as sort keys. History rows are ordered by the text that
 `datetime.isoformat()` prints, which drops the fraction when it is zero. The equal
 width of fraction digits that section 5.1 of RFC 3339 asks for is therefore not met;
 that text order is time order all the same is proved here, down to a count of
 microseconds in the proleptic Gregorian calendar.
 */
module Timestamps {
  // ----- text order, by code point

  predicate TextLess(a: string, b: string) {
    b != "" && (a == "" || a[0] < b[0] || (a[0] == b[0] && TextLess(a[1..], b[1..])))
  }

  lemma {:induction false} TextLessIrreflexive(a: string)
    ensures !TextLess(a, a)
  {
    if a != "" {
      TextLessIrreflexive(a[1..]);
    }
  }

  lemma {:induction false} TextLessTransitive(a: string, b: string, c: string)
    requires TextLess(a, b) && TextLess(b, c)
    ensures TextLess(a, c)
  {
    if a != "" && a[0] == b[0] == c[0] {
      TextLessTransitive(a[1..], b[1..], c[1..]);
    }
  }

  lemma {:induction false} TextLessTotal(a: string, b: string)
    ensures a == b || TextLess(a, b) || TextLess(b, a)
  {
    if a != "" && b != "" {
      assert a == [a[0]] + a[1..] && b == [b[0]] + b[1..];
      TextLessTotal(a[1..], b[1..]);
    }
  }

  /** Fields of equal width compare one after another. */
  lemma {:induction false} TextLessConcat(a: string, a': string, b: string, b': string)
    requires |a| == |b|
    ensures TextLess(a + a', b + b') <==> TextLess(a, b) || (a == b && TextLess(a', b'))
  {
    if a == "" {
      assert a + a' == a' && b + b' == b';
    } else {
      assert (a + a')[1..] == a[1..] + a' && (b + b')[1..] == b[1..] + b';
      TextLessConcat(a[1..], a', b[1..], b');
      assert a == [a[0]] + a[1..] && b == [b[0]] + b[1..];
    }
  }

  // ----- the text of a datetime

  datatype DateTime = DateTime(year: int, month: int, day: int, hour: int, minute: int, second: int, micro: int) {
    predicate Valid() {
      && 1 <= year <= 9999 && 1 <= month <= 12 && 1 <= day <= DaysInMonth(year, month)
      && 0 <= hour < 24 && 0 <= minute < 60 && 0 <= second < 60 && 0 <= micro < 1_000_000
    }

    predicate Before(b: DateTime) {
      year < b.year || (year == b.year && (
      month < b.month || (month == b.month && (
      day < b.day || (day == b.day && (
      hour < b.hour || (hour == b.hour && (
      minute < b.minute || (minute == b.minute && (
      second < b.second || (second == b.second && micro < b.micro)))))))))))
    }
  }

  function Digit(n: int): (c: char)
    requires 0 <= n < 10
    ensures c as int == 48 + n
  {
    (48 + n) as char
  }

  /** `n` in decimal, left-padded with zeros to `width` digits. */
  function Pad(n: int, width: nat): (s: string)
    requires n >= 0
    ensures |s| == width
  {
    if width == 0 then "" else Pad(n / 10, width - 1) + [Digit(n % 10)]
  }

  function Power10(k: nat): (p: nat)
    ensures p >= 1
  {
    if k == 0 then 1 else 10 * Power10(k - 1)
  }

  /** `YYYY-MM-DDTHH:MM:SS`, and `.ffffff` only when there are microseconds. */
  function IsoFormat(d: DateTime): string
    requires d.Valid()
  {
    Pad(d.year, 4) + ("-" + (Pad(d.month, 2) + ("-" + (Pad(d.day, 2) + ("T" + (Pad(d.hour, 2) + (":" +
    (Pad(d.minute, 2) + (":" + (Pad(d.second, 2) + Fraction(d.micro)))))))))))
  }

  function Fraction(micro: int): string
    requires micro >= 0
  {
    if micro == 0 then "" else "." + Pad(micro, 6)
  }

  /** The number a text of digits stands for. */
  function Value(s: string): int {
    if s == "" then 0 else 10 * Value(s[..|s| - 1]) + (s[|s| - 1] as int - '0' as int)
  }

  lemma {:induction false} PaddedValue(n: int, width: nat)
    requires 0 <= n < Power10(width)
    ensures Value(Pad(n, width)) == n
  {
    if width > 0 {
      PaddedValue(n / 10, width - 1);
      assert Pad(n, width)[..width - 1] == Pad(n / 10, width - 1);
    }
  }

  lemma IsoPositions(d: DateTime)
    requires d.Valid()
    ensures var s := IsoFormat(d);
            && |s| == (if d.micro == 0 then 19 else 26)
            && s[4] == '-' && s[7] == '-' && s[10] == 'T' && s[13] == ':' && s[16] == ':'
            && (d.micro > 0 ==> s[19] == '.')
            && s[..4] == Pad(d.year, 4) && s[5..7] == Pad(d.month, 2) && s[8..10] == Pad(d.day, 2)
            && s[11..13] == Pad(d.hour, 2) && s[14..16] == Pad(d.minute, 2) && s[17..19] == Pad(d.second, 2)
            && (d.micro > 0 ==> s[20..] == Pad(d.micro, 6))
  {
    hide Pad;
    var s, seconds := IsoFormat(d), Pad(d.second, 2);
    assert s[17] == seconds[0] && s[18] == seconds[1];
  }

  /** The printed text can be read back: every field at its place, the fraction exactly if there is one. */
  lemma IsoReadsBack(d: DateTime)
    requires d.Valid()
    ensures var s := IsoFormat(d);
            && |s| == (if d.micro == 0 then 19 else 26)
            && s[4] == '-' && s[7] == '-' && s[10] == 'T' && s[13] == ':' && s[16] == ':'
            && (d.micro > 0 ==> s[19] == '.')
            && Value(s[..4]) == d.year && Value(s[5..7]) == d.month && Value(s[8..10]) == d.day
            && Value(s[11..13]) == d.hour && Value(s[14..16]) == d.minute && Value(s[17..19]) == d.second
            && (d.micro > 0 ==> Value(s[20..]) == d.micro)
  {
    hide IsoFormat, Pad, Value;
    IsoPositions(d);
    SmallPowers();
    assert Power10(6) == 1_000_000;
    PaddedValue(d.year, 4);
    PaddedValue(d.month, 2);
    PaddedValue(d.day, 2);
    PaddedValue(d.hour, 2);
    PaddedValue(d.minute, 2);
    PaddedValue(d.second, 2);
    PaddedValue(d.micro, 6);
  }

  lemma {:induction false} PadOrder(a: int, b: int, width: nat)
    requires 0 <= a < Power10(width) && 0 <= b < Power10(width)
    ensures TextLess(Pad(a, width), Pad(b, width)) <==> a < b
    ensures Pad(a, width) == Pad(b, width) <==> a == b
  {
    if width > 0 {
      PadOrder(a / 10, b / 10, width - 1);
      var x, y := [Digit(a % 10)], [Digit(b % 10)];
      TextLessConcat(Pad(a / 10, width - 1), x, Pad(b / 10, width - 1), y);
      assert TextLess(x, y) <==> a % 10 < b % 10;
      assert Pad(a, width)[..width - 1] == Pad(a / 10, width - 1) && Pad(a, width)[width - 1] == Digit(a % 10);
      assert Pad(b, width)[..width - 1] == Pad(b / 10, width - 1) && Pad(b, width)[width - 1] == Digit(b % 10);
    }
  }

  /** One padded field in front of the rest. */
  lemma FieldOrder(a: int, b: int, width: nat, a': string, b': string)
    requires 0 <= a < Power10(width) && 0 <= b < Power10(width)
    ensures TextLess(Pad(a, width) + a', Pad(b, width) + b') <==> a < b || (a == b && TextLess(a', b'))
  {
    PadOrder(a, b, width);
    TextLessConcat(Pad(a, width), a', Pad(b, width), b');
  }

  lemma SeparatorOrder(c: string, a: string, b: string)
    ensures TextLess(c + a, c + b) <==> TextLess(a, b)
  {
    TextLessConcat(c, a, c, b);
    TextLessIrreflexive(c);
  }

  lemma FractionOrder(a: int, b: int)
    requires 0 <= a < 1_000_000 && 0 <= b < 1_000_000
    ensures TextLess(Fraction(a), Fraction(b)) <==> a < b
  {
    if a > 0 && b > 0 {
      assert Power10(6) == 1_000_000;
      PadOrder(a, b, 6);
      SeparatorOrder(".", Pad(a, 6), Pad(b, 6));
    }
  }

  lemma SmallPowers()
    ensures Power10(2) == 100 && Power10(4) == 10_000
  {
    assert Power10(1) == 10;
  }

  /** The text order of normalised timestamps is the order of their fields. */
  lemma IsoOrder(a: DateTime, b: DateTime)
    requires a.Valid() && b.Valid()
    ensures TextLess(IsoFormat(a), IsoFormat(b)) <==> a.Before(b)
    ensures IsoFormat(a) == IsoFormat(b) <==> a == b
  {
    IsoLess(a, b);
    IsoLess(b, a);
    TextLessIrreflexive(IsoFormat(a));
  }

  lemma IsoLess(a: DateTime, b: DateTime)
    requires a.Valid() && b.Valid()
    ensures TextLess(IsoFormat(a), IsoFormat(b)) <==> a.Before(b)
  {
    hide Pad, TextLess, Fraction, Power10;
    SmallPowers();
    FractionOrder(a.micro, b.micro);
    var s, s' := Fraction(a.micro), Fraction(b.micro);
    FieldOrder(a.second, b.second, 2, s, s');
    s, s' := Pad(a.second, 2) + s, Pad(b.second, 2) + s';
    SeparatorOrder(":", s, s');
    s, s' := ":" + s, ":" + s';
    FieldOrder(a.minute, b.minute, 2, s, s');
    s, s' := Pad(a.minute, 2) + s, Pad(b.minute, 2) + s';
    SeparatorOrder(":", s, s');
    s, s' := ":" + s, ":" + s';
    FieldOrder(a.hour, b.hour, 2, s, s');
    s, s' := Pad(a.hour, 2) + s, Pad(b.hour, 2) + s';
    SeparatorOrder("T", s, s');
    s, s' := "T" + s, "T" + s';
    FieldOrder(a.day, b.day, 2, s, s');
    s, s' := Pad(a.day, 2) + s, Pad(b.day, 2) + s';
    SeparatorOrder("-", s, s');
    s, s' := "-" + s, "-" + s';
    FieldOrder(a.month, b.month, 2, s, s');
    s, s' := Pad(a.month, 2) + s, Pad(b.month, 2) + s';
    SeparatorOrder("-", s, s');
    s, s' := "-" + s, "-" + s';
    FieldOrder(a.year, b.year, 4, s, s');
  }

  // ----- fields and instants

  predicate IsLeap(year: int) {
    year % 4 == 0 && (year % 100 != 0 || year % 400 == 0)
  }

  function DaysInMonth(year: int, month: int): (n: int)
    ensures 28 <= n <= 31
  {
    if month == 2 then (if IsLeap(year) then 29 else 28)
    else if month in {4, 6, 9, 11} then 30
    else 31
  }

  function DaysBeforeYear(year: int): int {
    var y := year - 1;
    y * 365 + y / 4 - y / 100 + y / 400
  }

  function DaysBeforeMonth(year: int, month: int): int
    decreases month
  {
    if month <= 1 then 0 else DaysBeforeMonth(year, month - 1) + DaysInMonth(year, month - 1)
  }

  function DayNumber(d: DateTime): int {
    DaysBeforeYear(d.year) + DaysBeforeMonth(d.year, d.month) + d.day
  }

  function MicrosOfDay(d: DateTime): int {
    ((d.hour * 60 + d.minute) * 60 + d.second) * 1_000_000 + d.micro
  }

  /** Microseconds on the timeline. */
  function Instant(d: DateTime): int {
    DayNumber(d) * 86_400_000_000 + MicrosOfDay(d)
  }

  lemma {:induction false} MonthsAscend(year: int, m: int, n: int)
    requires 1 <= m < n
    ensures DaysBeforeMonth(year, m) + DaysInMonth(year, m) <= DaysBeforeMonth(year, n)
    decreases n
  {
    if m < n - 1 {
      MonthsAscend(year, m, n - 1);
    }
  }

  lemma QuotientSteps(y: int)
    ensures y / 4 - (y - 1) / 4 == if y % 4 == 0 then 1 else 0
    ensures y / 100 - (y - 1) / 100 == if y % 100 == 0 then 1 else 0
    ensures y / 400 - (y - 1) / 400 == if y % 400 == 0 then 1 else 0
  {
  }

  lemma MultiplesOf100(k: int)
    ensures (100 * k) % 100 == 0
  {
  }

  lemma MultiplesOf4(k: int)
    ensures (4 * k) % 4 == 0
  {
  }

  lemma CenturyDivisors(y: int)
    ensures y % 400 == 0 ==> y % 100 == 0
    ensures y % 100 == 0 ==> y % 4 == 0
  {
    MultiplesOf100(4 * (y / 400));
    MultiplesOf4(25 * (y / 100));
  }

  lemma YearLength(year: int)
    ensures DaysBeforeYear(year + 1) == DaysBeforeYear(year) + if IsLeap(year) then 366 else 365
  {
    var q4, q100, q400 := year / 4, year / 100, year / 400;
    var p4, p100, p400 := (year - 1) / 4, (year - 1) / 100, (year - 1) / 400;
    assert q4 - p4 - (q100 - p100) + (q400 - p400) == if IsLeap(year) then 1 else 0 by {
      QuotientSteps(year);
      CenturyDivisors(year);
    }
    assert DaysBeforeYear(year + 1) == year * 365 + q4 - q100 + q400;
    assert DaysBeforeYear(year) == (year - 1) * 365 + p4 - p100 + p400;
  }

  lemma MonthsOfYear(year: int)
    ensures DaysBeforeMonth(year, 13) == if IsLeap(year) then 366 else 365
  {
    assert DaysBeforeMonth(year, 4) == if IsLeap(year) then 91 else 90;
    assert DaysBeforeMonth(year, 7) == DaysBeforeMonth(year, 4) + 91;
    assert DaysBeforeMonth(year, 10) == DaysBeforeMonth(year, 7) + 92;
  }

  lemma {:induction false} YearsAscend(y: int, z: int)
    requires 1 <= y < z
    ensures DaysBeforeYear(y + 1) <= DaysBeforeYear(z)
    decreases z
  {
    if y + 1 < z {
      YearsAscend(y, z - 1);
      YearLength(z - 1);
    }
  }

  lemma DayOrder(a: DateTime, b: DateTime)
    requires a.Valid() && b.Valid()
    requires a.year < b.year || (a.year == b.year && a.month < b.month)
    ensures DayNumber(a) < DayNumber(b)
  {
    hide DaysBeforeYear;
    if a.year == b.year {
      MonthsAscend(a.year, a.month, b.month);
    } else {
      YearsAscend(a.year, b.year);
      YearLength(a.year);
      MonthsOfYear(a.year);
      if a.month < 13 {
        MonthsAscend(a.year, a.month, 13);
      }
      if b.month > 1 {
        MonthsAscend(b.year, 1, b.month);
      }
    }
  }

  lemma EarlierInstant(a: DateTime, b: DateTime)
    requires a.Valid() && b.Valid() && a.Before(b)
    ensures Instant(a) < Instant(b)
  {
    hide DaysBeforeYear, DaysBeforeMonth;
    if a.year < b.year || (a.year == b.year && a.month < b.month) {
      DayOrder(a, b);
    }
    assert DayNumber(a) < DayNumber(b) || (DayNumber(a) == DayNumber(b) && MicrosOfDay(a) < MicrosOfDay(b));
  }

  /** Field order is time order. */
  lemma InstantOrder(a: DateTime, b: DateTime)
    requires a.Valid() && b.Valid()
    ensures a.Before(b) <==> Instant(a) < Instant(b)
    ensures a == b <==> Instant(a) == Instant(b)
  {
    hide Instant;
    if a.Before(b) {
      EarlierInstant(a, b);
    } else if b.Before(a) {
      EarlierInstant(b, a);
    }
  }

  /** What the sort key relies on: normalised text compares as the instants do. */
  lemma TextOrderIsTimeOrder(a: DateTime, b: DateTime)
    requires a.Valid() && b.Valid()
    ensures TextLess(IsoFormat(a), IsoFormat(b)) <==> Instant(a) < Instant(b)
    ensures IsoFormat(a) == IsoFormat(b) <==> Instant(a) == Instant(b)
  {
    hide Instant, IsoFormat;
    IsoOrder(a, b);
    InstantOrder(a, b);
  }
}
