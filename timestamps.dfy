/**
 * The UTC timestamps records carry, their order, and the two `strftime`
 * layouts the server prints them in: `%Y%m%d_%H%M%S` in generated meeting
 * names and `%Y-%m-%d %H:%M:%S` in downloads.
 */
module Timestamps {

  /** A `datetime` as `datetime.utcnow()` returns it. */
  datatype DateTime = DateTime(year: nat, month: nat, day: nat, hour: nat, minute: nat, second: nat, microsecond: nat)

  /** The ranges `datetime` keeps its fields in. */
  predicate Valid(t: DateTime)
  {
    1 <= t.year <= 9999 && 1 <= t.month <= 12 && 1 <= t.day <= 31 &&
    t.hour < 24 && t.minute < 60 && t.second < 60 && t.microsecond < 1000000
  }

  /** The timestamp counted in months, days, hours, minutes, seconds and microseconds. */
  function InMonths(t: DateTime): int { t.year * 12 + t.month }
  function InDays(t: DateTime): int { InMonths(t) * 31 + t.day }
  function InHours(t: DateTime): int { InDays(t) * 24 + t.hour }
  function InMinutes(t: DateTime): int { InHours(t) * 60 + t.minute }
  function InSeconds(t: DateTime): int { InMinutes(t) * 60 + t.second }

  /** A number that orders valid timestamps as `datetime` comparison does (field by field). */
  function Instant(t: DateTime): int
  {
    InSeconds(t) * 1000000 + t.microsecond
  }

  /** `a` and `b` agree on every field down to the month, day, hour, minute or second. */
  predicate SameMonth(a: DateTime, b: DateTime) { a.year == b.year && a.month == b.month }
  predicate SameDay(a: DateTime, b: DateTime) { SameMonth(a, b) && a.day == b.day }
  predicate SameHour(a: DateTime, b: DateTime) { SameDay(a, b) && a.hour == b.hour }
  predicate SameMinute(a: DateTime, b: DateTime) { SameHour(a, b) && a.minute == b.minute }
  predicate SameSecond(a: DateTime, b: DateTime) { SameMinute(a, b) && a.second == b.second }

  /** `a` comes first when only the fields down to the month, day, hour, minute or second are compared. */
  predicate EarlierMonth(a: DateTime, b: DateTime) { a.year < b.year || (a.year == b.year && a.month < b.month) }
  predicate EarlierDay(a: DateTime, b: DateTime) { EarlierMonth(a, b) || (SameMonth(a, b) && a.day < b.day) }
  predicate EarlierHour(a: DateTime, b: DateTime) { EarlierDay(a, b) || (SameDay(a, b) && a.hour < b.hour) }
  predicate EarlierMinute(a: DateTime, b: DateTime) { EarlierHour(a, b) || (SameHour(a, b) && a.minute < b.minute) }
  predicate EarlierSecond(a: DateTime, b: DateTime) { EarlierMinute(a, b) || (SameMinute(a, b) && a.second < b.second) }

  /** `a < b` for `datetime`: the fields compared in order, year first. */
  predicate Earlier(a: DateTime, b: DateTime)
  {
    EarlierSecond(a, b) || (SameSecond(a, b) && a.microsecond < b.microsecond)
  }

  /** One digit of a mixed-radix number: the high part decides unless it ties. */
  lemma MixedRadix(hx: int, lx: int, hy: int, ly: int, base: int, lo: int)
    requires base > 0 && lo <= lx < lo + base && lo <= ly < lo + base
    ensures hx * base + lx < hy * base + ly <==> hx < hy || (hx == hy && lx < ly)
    ensures hx * base + lx == hy * base + ly <==> hx == hy && lx == ly
  {
    if hx < hy {
      MultiplyGap(hx, hy, base);
    } else if hy < hx {
      MultiplyGap(hy, hx, base);
    }
  }

  lemma MultiplyGap(x: int, y: int, base: int)
    requires x < y && base > 0
    ensures y * base >= x * base + base
  {
    var k := y - x - 1;
    assert k * base >= 0;
    assert y * base == x * base + base + k * base;
  }

  /** Appending one field to two mixed-radix prefixes whose order is known. */
  lemma NextField(hx: int, lx: int, hy: int, ly: int, base: int, lo: int, lt: bool, eq: bool)
    requires base > 0 && lo <= lx < lo + base && lo <= ly < lo + base
    requires (hx < hy) == lt && (hx == hy) == eq
    ensures (hx * base + lx < hy * base + ly) == (lt || (eq && lx < ly))
    ensures (hx * base + lx == hy * base + ly) == (eq && lx == ly)
  {
    MixedRadix(hx, lx, hy, ly, base, lo);
  }

  lemma MonthOrder(a: DateTime, b: DateTime)
    requires Valid(a) && Valid(b)
    ensures (InMonths(a) < InMonths(b)) == EarlierMonth(a, b) && (InMonths(a) == InMonths(b)) == SameMonth(a, b)
  {
    NextField(a.year, a.month, b.year, b.month, 12, 1, a.year < b.year, a.year == b.year);
  }

  lemma DayOrder(a: DateTime, b: DateTime)
    requires Valid(a) && Valid(b)
    ensures (InDays(a) < InDays(b)) == EarlierDay(a, b) && (InDays(a) == InDays(b)) == SameDay(a, b)
  {
    MonthOrder(a, b);
    NextField(InMonths(a), a.day, InMonths(b), b.day, 31, 1, EarlierMonth(a, b), SameMonth(a, b));
  }

  lemma HourOrder(a: DateTime, b: DateTime)
    requires Valid(a) && Valid(b)
    ensures (InHours(a) < InHours(b)) == EarlierHour(a, b) && (InHours(a) == InHours(b)) == SameHour(a, b)
  {
    DayOrder(a, b);
    NextField(InDays(a), a.hour, InDays(b), b.hour, 24, 0, EarlierDay(a, b), SameDay(a, b));
  }

  lemma MinuteOrder(a: DateTime, b: DateTime)
    requires Valid(a) && Valid(b)
    ensures (InMinutes(a) < InMinutes(b)) == EarlierMinute(a, b) && (InMinutes(a) == InMinutes(b)) == SameMinute(a, b)
  {
    HourOrder(a, b);
    NextField(InHours(a), a.minute, InHours(b), b.minute, 60, 0, EarlierHour(a, b), SameHour(a, b));
  }

  lemma SecondOrder(a: DateTime, b: DateTime)
    requires Valid(a) && Valid(b)
    ensures (InSeconds(a) < InSeconds(b)) == EarlierSecond(a, b) && (InSeconds(a) == InSeconds(b)) == SameSecond(a, b)
  {
    MinuteOrder(a, b);
    NextField(InMinutes(a), a.second, InMinutes(b), b.second, 60, 0, EarlierMinute(a, b), SameMinute(a, b));
  }

  /** `Instant` orders valid timestamps exactly as `datetime` comparison does, and equal instants are equal timestamps. */
  lemma InstantOrder(a: DateTime, b: DateTime)
    requires Valid(a) && Valid(b)
    ensures Instant(a) < Instant(b) <==> Earlier(a, b)
    ensures Instant(a) == Instant(b) <==> a == b
  {
    SecondOrder(a, b);
    NextField(InSeconds(a), a.microsecond, InSeconds(b), b.microsecond, 1000000, 0, EarlierSecond(a, b), SameSecond(a, b));
  }

  function Pow10(n: nat): nat
  {
    if n == 0 then 1 else 10 * Pow10(n - 1)
  }

  function DigitChar(d: nat): char
    requires d < 10
  {
    ('0' as int + d) as char
  }

  /** The last `width` decimal digits of `n`, zero-padded (`%02d`, `%04d`). */
  function Digits(n: nat, width: nat): (s: string)
    ensures |s| == width
    ensures forall i :: 0 <= i < |s| ==> '0' <= s[i] <= '9'
  {
    if width == 0 then "" else Digits(n / 10, width - 1) + [DigitChar(n % 10)]
  }

  /** Reads a string of decimal digits back as a number. */
  function ParseDigits(s: string): nat
  {
    if s == [] then 0
    else
      var d := s[|s| - 1] as int - '0' as int;
      ParseDigits(s[..|s| - 1]) * 10 + (if 0 <= d < 10 then d else 0)
  }

  lemma {:induction false} DigitsRoundTrip(n: nat, width: nat)
    requires n < Pow10(width)
    ensures ParseDigits(Digits(n, width)) == n
  {
    if width > 0 {
      DigitsRoundTrip(n / 10, width - 1);
      var s := Digits(n, width);
      assert s[..|s| - 1] == Digits(n / 10, width - 1);
    }
  }

  /** `t.strftime('%Y%m%d_%H%M%S')`. */
  function Stamp(t: DateTime): (s: string)
    ensures |s| == 15 && s[8] == '_'
  {
    Digits(t.year, 4) + Digits(t.month, 2) + Digits(t.day, 2) + "_" +
    Digits(t.hour, 2) + Digits(t.minute, 2) + Digits(t.second, 2)
  }

  /** The date and time to the second, read back from a stamp. */
  function ParseStamp(s: string): (nat, nat, nat, nat, nat, nat)
    requires |s| == 15
  {
    (ParseDigits(s[0..4]), ParseDigits(s[4..6]), ParseDigits(s[6..8]),
     ParseDigits(s[9..11]), ParseDigits(s[11..13]), ParseDigits(s[13..15]))
  }

  /** A stamp gives back the date and time of a valid timestamp, to the second. */
  lemma StampRoundTrip(t: DateTime)
    requires Valid(t)
    ensures ParseStamp(Stamp(t)) == (t.year, t.month, t.day, t.hour, t.minute, t.second)
  {
    var s := Stamp(t);
    // The stamp's prefixes up to the end of each field.
    var p4 := Digits(t.year, 4);
    var p6 := p4 + Digits(t.month, 2);
    var p8 := p6 + Digits(t.day, 2);
    var p11 := p8 + "_" + Digits(t.hour, 2);
    var p13 := p11 + Digits(t.minute, 2);
    assert s == p13 + Digits(t.second, 2);
    assert s[..13] == p13 && p13[..11] == p11 && p11[..8] == p8 && p8[..6] == p6 && p6[..4] == p4;
    assert s[0..4] == p4;
    assert s[4..6] == Digits(t.month, 2) by { assert s[4..6] == p6[4..]; }
    assert s[6..8] == Digits(t.day, 2) by { assert s[6..8] == p8[6..]; }
    assert s[9..11] == Digits(t.hour, 2) by { assert s[9..11] == p11[9..]; }
    assert s[11..13] == Digits(t.minute, 2) by { assert s[11..13] == p13[11..]; }
    assert s[13..15] == Digits(t.second, 2);
    assert Pow10(2) == 100 && Pow10(4) == 10000 by {
      assert Pow10(1) == 10;
      assert Pow10(3) == 1000;
    }
    DigitsRoundTrip(t.year, 4);
    DigitsRoundTrip(t.month, 2);
    DigitsRoundTrip(t.day, 2);
    DigitsRoundTrip(t.hour, 2);
    DigitsRoundTrip(t.minute, 2);
    DigitsRoundTrip(t.second, 2);
  }

  /** Two valid timestamps have the same stamp exactly when they agree to the second. */
  lemma StampIdentifiesSecond(a: DateTime, b: DateTime)
    requires Valid(a) && Valid(b)
    ensures Stamp(a) == Stamp(b) <==>
      (a.year, a.month, a.day, a.hour, a.minute, a.second) == (b.year, b.month, b.day, b.hour, b.minute, b.second)
  {
    StampRoundTrip(a);
    StampRoundTrip(b);
  }

  /** `t.strftime('%Y-%m-%d %H:%M:%S')`. */
  function DateText(t: DateTime): (s: string)
    ensures |s| == 19 && s[4] == '-' && s[7] == '-' && s[10] == ' ' && s[13] == ':' && s[16] == ':'
  {
    Digits(t.year, 4) + "-" + Digits(t.month, 2) + "-" + Digits(t.day, 2) + " " +
    Digits(t.hour, 2) + ":" + Digits(t.minute, 2) + ":" + Digits(t.second, 2)
  }

  /** The date and time to the second, read back from a `%Y-%m-%d %H:%M:%S` text. */
  function ParseDateText(s: string): (nat, nat, nat, nat, nat, nat)
    requires |s| == 19
  {
    (ParseDigits(s[0..4]), ParseDigits(s[5..7]), ParseDigits(s[8..10]),
     ParseDigits(s[11..13]), ParseDigits(s[14..16]), ParseDigits(s[17..19]))
  }

  /** The date text gives back the date and time of a valid timestamp, to the second. */
  lemma DateTextRoundTrip(t: DateTime)
    requires Valid(t)
    ensures ParseDateText(DateText(t)) == (t.year, t.month, t.day, t.hour, t.minute, t.second)
  {
    var s := DateText(t);
    // The text's prefixes up to the end of each field.
    var p4 := Digits(t.year, 4);
    var p7 := p4 + "-" + Digits(t.month, 2);
    var p10 := p7 + "-" + Digits(t.day, 2);
    var p13 := p10 + " " + Digits(t.hour, 2);
    var p16 := p13 + ":" + Digits(t.minute, 2);
    assert s == p16 + ":" + Digits(t.second, 2);
    assert s[..16] == p16 && p16[..13] == p13 && p13[..10] == p10 && p10[..7] == p7 && p7[..4] == p4;
    assert s[0..4] == p4;
    assert s[5..7] == Digits(t.month, 2) by { assert s[5..7] == p7[5..]; }
    assert s[8..10] == Digits(t.day, 2) by { assert s[8..10] == p10[8..]; }
    assert s[11..13] == Digits(t.hour, 2) by { assert s[11..13] == p13[11..]; }
    assert s[14..16] == Digits(t.minute, 2) by { assert s[14..16] == p16[14..]; }
    assert s[17..19] == Digits(t.second, 2);
    assert Pow10(2) == 100 && Pow10(4) == 10000 by {
      assert Pow10(1) == 10;
      assert Pow10(3) == 1000;
    }
    DigitsRoundTrip(t.year, 4);
    DigitsRoundTrip(t.month, 2);
    DigitsRoundTrip(t.day, 2);
    DigitsRoundTrip(t.hour, 2);
    DigitsRoundTrip(t.minute, 2);
    DigitsRoundTrip(t.second, 2);
  }
}
