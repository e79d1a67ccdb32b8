/**
 * The text timestamps of the approval store.  A UTC moment is written by Python's
 * datetime.isoformat(): the fraction is left out when it is zero.  SQLite then
 * orders the rows by comparing these texts character by character.
 */
module Timestamps {

  datatype RawMoment = RawMoment(
    year: int, month: int, day: int, hour: int, minute: int, second: int, micro: int)

  type Moment = m: RawMoment | IsMoment(m) witness RawMoment(1, 1, 1, 0, 0, 0, 0)

  predicate IsMoment(m: RawMoment) {
    && 1 <= m.year <= 9999 && 1 <= m.month <= 12 && 1 <= m.day <= DaysIn(m.year, m.month)
    && 0 <= m.hour < 24 && 0 <= m.minute < 60 && 0 <= m.second < 60
    && 0 <= m.micro < 1_000_000
  }

  predicate IsLeap(year: int) {
    year % 4 == 0 && (year % 100 != 0 || year % 400 == 0)
  }

  function DaysIn(year: int, month: int): nat {
    if month == 2 then (if IsLeap(year) then 29 else 28)
    else if month in {4, 6, 9, 11} then 30
    else 31
  }

  // ---------- Time: microseconds on the proleptic Gregorian calendar ----------

  function DaysBeforeYear(year: int): int {
    365 * (year - 1) + (year - 1) / 4 - (year - 1) / 100 + (year - 1) / 400
  }

  function DaysBeforeMonth(year: int, month: int): nat
    requires 1 <= month <= 13
  {
    if month == 1 then 0 else DaysBeforeMonth(year, month - 1) + DaysIn(year, month - 1)
  }

  function DayNumber(m: Moment): int {
    DaysBeforeYear(m.year) + DaysBeforeMonth(m.year, m.month) + m.day
  }

  function SecondOfDay(m: Moment): int {
    (m.hour * 60 + m.minute) * 60 + m.second
  }

  function Micros(m: Moment): int {
    (DayNumber(m) * 86_400 + SecondOfDay(m)) * 1_000_000 + m.micro
  }

  // ---------- Text ----------

  function Digit(d: int): char
    requires 0 <= d < 10
  {
    '0' + d as char
  }

  function Pow10(width: nat): nat {
    if width == 0 then 1 else 10 * Pow10(width - 1)
  }

  /** The last `width` decimal digits of n, padded with zeros. */
  function Digits(n: nat, width: nat): (text: string)
    ensures |text| == width
    ensures forall i :: 0 <= i < width ==> '0' <= text[i] <= '9'
  {
    if width == 0 then "" else Digits(n / 10, width - 1) + [Digit(n % 10)]
  }

  /** The number written by a text of digits. */
  function ReadDigits(text: string): int {
    if text == "" then 0 else ReadDigits(text[..|text| - 1]) * 10 + (text[|text| - 1] as int - '0' as int)
  }

  lemma {:induction false} ReadDigitsBack(n: nat, width: nat)
    requires n < Pow10(width)
    ensures ReadDigits(Digits(n, width)) == n
  {
    if width > 0 {
      ReadDigitsBack(n / 10, width - 1);
      assert Digits(n, width)[..width - 1] == Digits(n / 10, width - 1);
    }
  }

  function Fraction(micro: nat): string {
    if micro == 0 then "" else "." + Digits(micro, 6)
  }

  function DateText(m: Moment): string {
    Digits(m.year, 4) + ("-" + (Digits(m.month, 2) + ("-" + Digits(m.day, 2))))
  }

  function ClockText(m: Moment): string {
    Digits(m.hour, 2) + (":" + (Digits(m.minute, 2) + (":" + Digits(m.second, 2))))
  }

  function IsoText(m: Moment): string {
    DateText(m) + ("T" + (ClockText(m) + (Fraction(m.micro) + "+00:00")))
  }

  /** Character-by-character comparison, a proper prefix coming first. */
  predicate TextLess(a: string, b: string) {
    b != "" && (a == "" || a[0] < b[0] || (a[0] == b[0] && TextLess(a[1..], b[1..])))
  }

  // ---------- Text order of the pieces ----------

  lemma {:induction false} TextLessConcat(p: string, q: string, a: string, b: string)
    requires |p| == |q|
    ensures TextLess(p + a, q + b) <==> TextLess(p, q) || (p == q && TextLess(a, b))
  {
    if p == "" {
      assert p + a == a && q + b == b;
    } else {
      assert (p + a)[1..] == p[1..] + a && (q + b)[1..] == q[1..] + b;
      TextLessConcat(p[1..], q[1..], a, b);
      assert p == [p[0]] + p[1..] && q == [q[0]] + q[1..];
    }
  }

  lemma TextLessSamePrefix(p: string, a: string, b: string)
    ensures TextLess(p + a, p + b) <==> TextLess(a, b)
  {
    TextLessConcat(p, p, a, b);
    TextLessIrreflexive(p);
  }

  lemma {:induction false} TextLessIrreflexive(a: string)
    ensures !TextLess(a, a)
  {
    if a != "" {
      TextLessIrreflexive(a[1..]);
    }
  }

  lemma {:induction false} DigitsOrder(n: nat, m: nat, width: nat)
    requires n < Pow10(width) && m < Pow10(width)
    ensures TextLess(Digits(n, width), Digits(m, width)) <==> n < m
    ensures Digits(n, width) == Digits(m, width) <==> n == m
  {
    if width > 0 {
      DigitsOrder(n / 10, m / 10, width - 1);
      var p, q := Digits(n / 10, width - 1), Digits(m / 10, width - 1);
      var x, y := [Digit(n % 10)], [Digit(m % 10)];
      TextLessConcat(p, q, x, y);
      assert TextLess(x, y) <==> n % 10 < m % 10;
      assert Digits(n, width) == p + x && Digits(m, width) == q + y;
      assert p == (p + x)[..width - 1] && q == (q + y)[..width - 1];
      assert x[0] == (p + x)[width - 1] && y[0] == (q + y)[width - 1];
    }
  }

  lemma PowersOfTen()
    ensures Pow10(2) == 100 && Pow10(4) == 10_000 && Pow10(6) == 1_000_000
  {
  }

  lemma EqualConcat(p: string, q: string, a: string, b: string)
    requires |p| == |q|
    ensures p + a == q + b <==> p == q && a == b
  {
    assert p == (p + a)[..|p|] && q == (q + b)[..|q|];
    assert a == (p + a)[|p|..] && b == (q + b)[|q|..];
  }

  /** Two fixed-width numbers in front, separated by one character. */
  lemma FieldThenRest(n: nat, m: nat, width: nat, sep: string, a: string, b: string)
    requires n < Pow10(width) && m < Pow10(width)
    ensures TextLess(Digits(n, width) + (sep + a), Digits(m, width) + (sep + b))
       <==> n < m || (n == m && TextLess(a, b))
    ensures Digits(n, width) + (sep + a) == Digits(m, width) + (sep + b) <==> n == m && a == b
  {
    TextLessConcat(Digits(n, width), Digits(m, width), sep + a, sep + b);
    TextLessSamePrefix(sep, a, b);
    DigitsOrder(n, m, width);
    EqualConcat(Digits(n, width), Digits(m, width), sep + a, sep + b);
    EqualConcat(sep, sep, a, b);
  }

  lemma DateTextOrder(a: Moment, b: Moment)
    ensures TextLess(DateText(a), DateText(b))
       <==> a.year < b.year || (a.year == b.year && (a.month < b.month || (a.month == b.month && a.day < b.day)))
    ensures DateText(a) == DateText(b) <==> a.year == b.year && a.month == b.month && a.day == b.day
    ensures |DateText(a)| == |DateText(b)| == 10
  {
    PowersOfTen();
    var ra, rb := Digits(a.month, 2) + ("-" + Digits(a.day, 2)), Digits(b.month, 2) + ("-" + Digits(b.day, 2));
    FieldThenRest(a.year, b.year, 4, "-", ra, rb);
    FieldThenRest(a.month, b.month, 2, "-", Digits(a.day, 2), Digits(b.day, 2));
    DigitsOrder(a.day, b.day, 2);
  }

  lemma ClockTextOrder(a: Moment, b: Moment)
    ensures TextLess(ClockText(a), ClockText(b)) <==> SecondOfDay(a) < SecondOfDay(b)
    ensures ClockText(a) == ClockText(b) <==> SecondOfDay(a) == SecondOfDay(b)
    ensures |ClockText(a)| == |ClockText(b)| == 8
  {
    PowersOfTen();
    var ra, rb := Digits(a.minute, 2) + (":" + Digits(a.second, 2)), Digits(b.minute, 2) + (":" + Digits(b.second, 2));
    FieldThenRest(a.hour, b.hour, 2, ":", ra, rb);
    FieldThenRest(a.minute, b.minute, 2, ":", Digits(a.second, 2), Digits(b.second, 2));
    DigitsOrder(a.second, b.second, 2);
  }

  /** A missing fraction sorts first because '+' comes before '.'. */
  lemma FractionOrder(n: nat, m: nat)
    requires n < 1_000_000 && m < 1_000_000
    ensures TextLess(Fraction(n) + "+00:00", Fraction(m) + "+00:00") <==> n < m
  {
    PowersOfTen();
    var zone := "+00:00";
    TextLessIrreflexive(zone);
    assert "" + zone == zone;
    if n > 0 && m > 0 {
      TextLessConcat(Fraction(n), Fraction(m), zone, zone);
      TextLessSamePrefix(".", Digits(n, 6), Digits(m, 6));
      DigitsOrder(n, m, 6);
    } else if n > 0 {
      assert (Fraction(n) + zone)[0] == '.';
    } else if m > 0 {
      assert (Fraction(m) + zone)[0] == '.';
    }
  }

  // ---------- Calendar order ----------

  lemma DaysBeforeNextYear(year: int)
    ensures DaysBeforeYear(year + 1) == DaysBeforeYear(year) + 365 + (if IsLeap(year) then 1 else 0)
  {
    assert year / 4 == (year - 1) / 4 + (if year % 4 == 0 then 1 else 0);
    assert year / 100 == (year - 1) / 100 + (if year % 100 == 0 then 1 else 0);
    assert year / 400 == (year - 1) / 400 + (if year % 400 == 0 then 1 else 0);
    assert year % 400 == 0 ==> year % 100 == 0;
    assert year % 100 == 0 ==> year % 4 == 0;
  }

  lemma {:induction false} DaysBeforeYearMonotone(a: int, b: int)
    requires a < b
    ensures DaysBeforeYear(a) + (if IsLeap(a) then 366 else 365) <= DaysBeforeYear(b)
    decreases b - a
  {
    DaysBeforeNextYear(b - 1);
    if a + 1 < b {
      DaysBeforeYearMonotone(a, b - 1);
    }
  }

  lemma {:induction false} DaysBeforeMonthMonotone(year: int, a: int, b: int)
    requires 1 <= a < b <= 13
    ensures DaysBeforeMonth(year, a) + DaysIn(year, a) <= DaysBeforeMonth(year, b)
    decreases b - a
  {
    if a + 1 < b {
      DaysBeforeMonthMonotone(year, a, b - 1);
    }
  }

  lemma DaysInTheYear(year: int)
    ensures DaysBeforeMonth(year, 13) == if IsLeap(year) then 366 else 365
  {
    var leap := if IsLeap(year) then 1 else 0;
    assert DaysBeforeMonth(year, 2) == 31;
    assert DaysBeforeMonth(year, 3) == 59 + leap;
    assert DaysBeforeMonth(year, 5) == 120 + leap;
    assert DaysBeforeMonth(year, 7) == 181 + leap;
    assert DaysBeforeMonth(year, 9) == 243 + leap;
    assert DaysBeforeMonth(year, 11) == 304 + leap;
  }

  lemma LaterDateLaterDay(a: Moment, b: Moment)
    requires a.year < b.year || (a.year == b.year && (a.month < b.month || (a.month == b.month && a.day < b.day)))
    ensures DayNumber(a) < DayNumber(b)
  {
    if a.year < b.year {
      DaysBeforeYearMonotone(a.year, b.year);
      DaysInTheYear(a.year);
      DaysBeforeMonthMonotone(a.year, a.month, 13);
    } else if a.month < b.month {
      DaysBeforeMonthMonotone(a.year, a.month, b.month);
    }
  }

  /** Three days that fix the count: the first of all, the Unix epoch, and a leap day. */
  lemma KnownDays(first: Moment, epoch: Moment, leapDay: Moment)
    requires first.year == 1 && first.month == 1 && first.day == 1
    requires epoch.year == 1970 && epoch.month == 1 && epoch.day == 1
    requires leapDay.year == 2000 && leapDay.month == 2 && leapDay.day == 29
    ensures DayNumber(first) == 1 && DayNumber(epoch) == 719_163 && DayNumber(leapDay) == 730_179
  {
    assert DaysBeforeMonth(2000, 2) == 31;
  }

  // ---------- Main results ----------

  /** Comparing stored texts is comparing instants, for every pair of moments. */
  lemma TextOrderIsTimeOrder(a: Moment, b: Moment)
    ensures TextLess(IsoText(a), IsoText(b)) <==> Micros(a) < Micros(b)
  {
    var fa, fb := Fraction(a.micro) + "+00:00", Fraction(b.micro) + "+00:00";
    DateTextOrder(a, b);
    TextLessConcat(DateText(a), DateText(b), "T" + (ClockText(a) + fa), "T" + (ClockText(b) + fb));
    TextLessSamePrefix("T", ClockText(a) + fa, ClockText(b) + fb);
    ClockTextOrder(a, b);
    TextLessConcat(ClockText(a), ClockText(b), fa, fb);
    FractionOrder(a.micro, b.micro);
    if a.year != b.year || a.month != b.month || a.day != b.day {
      if TextLess(DateText(a), DateText(b)) {
        LaterDateLaterDay(a, b);
      } else {
        LaterDateLaterDay(b, a);
      }
    }
  }

  /** Two texts of fields: year, month and day, or hour, minute and second. */
  function ReadThree(text: string, width: nat): (int, int, int)
    requires |text| == width + 6
  {
    (ReadDigits(text[..width]), ReadDigits(text[width + 1..width + 3]), ReadDigits(text[width + 4..]))
  }

  lemma ReadThreeBack(n: nat, width: nat, sep: char, x: nat, y: nat)
    requires n < Pow10(width) && x < 100 && y < 100
    ensures var text := Digits(n, width) + ([sep] + (Digits(x, 2) + ([sep] + Digits(y, 2))));
      |text| == width + 6 && text[width] == text[width + 3] == sep && ReadThree(text, width) == (n, x, y)
  {
    PowersOfTen();
    ReadDigitsBack(n, width);
    ReadDigitsBack(x, 2);
    ReadDigitsBack(y, 2);
    hide Digits, ReadDigits, Pow10;
    var text := Digits(n, width) + ([sep] + (Digits(x, 2) + ([sep] + Digits(y, 2))));
    assert text[..width] == Digits(n, width);
    assert text[width + 1..width + 3] == Digits(x, 2);
    assert text[width + 4..] == Digits(y, 2);
  }

  /** Reads a stored text: date, clock, and a fraction if a point follows the seconds. */
  function ReadIso(text: string): RawMoment {
    if |text| < 25 then RawMoment(0, 0, 0, 0, 0, 0, 0)
    else
      var (year, month, day) := ReadThree(text[..10], 4);
      var (hour, minute, second) := ReadThree(text[11..19], 2);
      RawMoment(year, month, day, hour, minute, second,
                if text[19] == '.' && |text| >= 26 then ReadDigits(text[20..26]) else 0)
  }

  lemma FourParts(date: string, clock: string, tail: string)
    requires |date| == 10 && |clock| == 8
    ensures var text := date + ("T" + (clock + tail));
      |text| == 19 + |tail| && text[..10] == date && text[10] == 'T' && text[11..19] == clock && text[19..] == tail
  {
    var text := date + ("T" + (clock + tail));
    assert text[..10] == date;
    assert text[11..19] == clock;
    assert text[19..] == tail;
  }

  lemma ReadFraction(n: nat)
    requires n < 1_000_000
    ensures var tail := Fraction(n) + "+00:00";
      && |tail| == (if n == 0 then 6 else 13) && tail[|tail| - 6..] == "+00:00"
      && (if n == 0 then tail[0] == '+' else tail[0] == '.' && ReadDigits(tail[1..7]) == n)
  {
    PowersOfTen();
    ReadDigitsBack(n, 6);
    hide Digits, ReadDigits, Pow10;
    var tail := Fraction(n) + "+00:00";
    if n != 0 {
      assert tail[1..7] == Digits(n, 6);
      assert tail[7..] == "+00:00";
    } else {
      assert tail[0..] == "+00:00";
    }
  }

  /** The text is in the ISO layout, and the moment can be read back from it. */
  lemma ReadIsoBack(m: Moment)
    ensures var text := IsoText(m);
      && |text| == (if m.micro == 0 then 25 else 32)
      && text[..10][4] == text[..10][7] == '-' && text[10] == 'T' && text[11..19][2] == text[11..19][5] == ':'
      && text[19..][|text| - 25..] == "+00:00" && (m.micro != 0 ==> text[19] == '.')
      && ReadIso(text) == m
  {
    PowersOfTen();
    var text, tail := IsoText(m), Fraction(m.micro) + "+00:00";
    ReadThreeBack(m.year, 4, '-', m.month, m.day);
    ReadThreeBack(m.hour, 2, ':', m.minute, m.second);
    ReadFraction(m.micro);
    hide Digits, ReadDigits, Pow10, Fraction, ReadThree, DaysIn;
    FourParts(DateText(m), ClockText(m), tail);
    assert text[19] == text[19..][0];
    assert m.micro != 0 ==> text[20..26] == text[19..][1..7];
  }
}
