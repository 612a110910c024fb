/** Calendar times at second precision, as Python's `datetime` holds them, with a
    fixed-width model of `strptime` for the formats "%Y-%m-%d" and
    "%Y-%m-%d %H:%M:%S", the matching `strftime`, and chronological order. */
module Timestamps {
  import opened Wrappers

  datatype DateTime = DateTime(year: int, month: int, day: int, hour: int, minute: int, second: int)

  predicate IsLeapYear(y: int) {
    y % 4 == 0 && (y % 100 != 0 || y % 400 == 0)
  }

  function DaysInMonth(y: int, m: int): int
    requires 1 <= m <= 12
  {
    if m == 2 then (if IsLeapYear(y) then 29 else 28)
    else if m == 4 || m == 6 || m == 9 || m == 11 then 30
    else 31
  }

  /** The values `datetime` accepts: years 1 to 9999, real calendar days, and
      times from 00:00:00 to 23:59:59. */
  predicate Valid(t: DateTime) {
    && 1 <= t.year <= 9999
    && 1 <= t.month <= 12
    && 1 <= t.day <= DaysInMonth(t.year, t.month)
    && 0 <= t.hour < 24
    && 0 <= t.minute < 60
    && 0 <= t.second < 60
  }

  predicate IsMidnight(t: DateTime) {
    t.hour == 0 && t.minute == 0 && t.second == 0
  }

  /** Chronological order: `datetime` compares field by field, largest unit first. */
  predicate NotAfter(a: DateTime, b: DateTime) {
    if a.year != b.year then a.year < b.year
    else if a.month != b.month then a.month < b.month
    else if a.day != b.day then a.day < b.day
    else if a.hour != b.hour then a.hour < b.hour
    else if a.minute != b.minute then a.minute < b.minute
    else a.second <= b.second
  }

  lemma NotAfterIsTotalOrder(a: DateTime, b: DateTime, c: DateTime)
    ensures NotAfter(a, a)
    ensures NotAfter(a, b) || NotAfter(b, a)
    ensures NotAfter(a, b) && NotAfter(b, a) ==> a == b
    ensures NotAfter(a, b) && NotAfter(b, c) ==> NotAfter(a, c)
  {
  }

  // ---- fixed-width digits ----

  predicate IsDigit(c: char) {
    '0' <= c <= '9'
  }

  function DigitValue(c: char): int
    requires IsDigit(c)
  {
    c as int - '0' as int
  }

  function DigitChar(d: int): char
    requires 0 <= d < 10
  {
    ('0' as int + d) as char
  }

  predicate DigitsAt(s: string, i: int, n: int)
    requires 0 <= i && i + n <= |s|
  {
    forall k :: i <= k < i + n ==> IsDigit(s[k])
  }

  function Number2(s: string, i: int): int
    requires 0 <= i && i + 2 <= |s| && DigitsAt(s, i, 2)
  {
    10 * DigitValue(s[i]) + DigitValue(s[i + 1])
  }

  function Number4(s: string, i: int): int
    requires 0 <= i && i + 4 <= |s| && DigitsAt(s, i, 4)
  {
    100 * Number2(s, i) + Number2(s, i + 2)
  }

  function Pad2(n: int): (r: string)
    requires 0 <= n < 100
  {
    [DigitChar(n / 10), DigitChar(n % 10)]
  }

  function Pad4(n: int): string
    requires 0 <= n < 10000
  {
    Pad2(n / 100) + Pad2(n % 100)
  }

  lemma Pad2Reads(n: int)
    requires 0 <= n < 100
    ensures DigitsAt(Pad2(n), 0, 2) && Number2(Pad2(n), 0) == n
  {
  }

  lemma Pad4Reads(n: int)
    requires 0 <= n < 10000
    ensures DigitsAt(Pad4(n), 0, 4) && Number4(Pad4(n), 0) == n
  {
    Pad2Reads(n / 100);
    Pad2Reads(n % 100);
  }

  lemma DivModByHundred(hi: int, lo: int)
    requires 0 <= lo < 100
    ensures (100 * hi + lo) / 100 == hi && (100 * hi + lo) % 100 == lo
  {
  }

  lemma Number2Prints(s: string, i: int)
    requires 0 <= i && i + 2 <= |s| && DigitsAt(s, i, 2)
    ensures Pad2(Number2(s, i)) == s[i..i + 2]
  {
  }

  lemma Number4Prints(s: string, i: int)
    requires 0 <= i && i + 4 <= |s| && DigitsAt(s, i, 4)
    ensures Pad4(Number4(s, i)) == s[i..i + 4]
  {
    var hi, lo := Number2(s, i), Number2(s, i + 2);
    assert Number4(s, i) / 100 == hi && Number4(s, i) % 100 == lo by {
      DivModByHundred(hi, lo);
    }
    Number2Prints(s, i);
    Number2Prints(s, i + 2);
    assert s[i..i + 4] == s[i..i + 2] + s[i + 2..i + 4];
  }

  // ---- strptime / strftime ----

  /** The "YYYY-MM-DD" shape at the start of `s`. */
  predicate DateShape(s: string)
    requires |s| >= 10
  {
    DigitsAt(s, 0, 4) && s[4] == '-' && DigitsAt(s, 5, 2) && s[7] == '-' && DigitsAt(s, 8, 2)
  }

  /** `datetime.strptime(s, "%Y-%m-%d")` on the zero-padded form: midnight of the
      given day. None where Python raises ValueError, and also for the forms that
      are not fixed-width which `strptime` tolerates (unpadded or space-padded fields). */
  function ParseDate(s: string): (r: Option<DateTime>)
    ensures r.Some? ==> Valid(r.value) && IsMidnight(r.value)
  {
    if |s| == 10 && DateShape(s) then
      var t := DateTime(Number4(s, 0), Number2(s, 5), Number2(s, 8), 0, 0, 0);
      if Valid(t) then Some(t) else None
    else None
  }

  /** `datetime.strptime(s, "%Y-%m-%d %H:%M:%S")` on the zero-padded form. None where
      Python raises ValueError, and also for the forms that are not fixed-width which
      `strptime` tolerates (one-digit or space-padded fields, several blanks between
      date and time). */
  function ParseTimestamp(s: string): (r: Option<DateTime>)
    ensures r.Some? ==> Valid(r.value)
  {
    if |s| == 19 && DateShape(s) && s[10] == ' '
       && DigitsAt(s, 11, 2) && s[13] == ':' && DigitsAt(s, 14, 2) && s[16] == ':' && DigitsAt(s, 17, 2) then
      var t := DateTime(Number4(s, 0), Number2(s, 5), Number2(s, 8), Number2(s, 11), Number2(s, 14), Number2(s, 17));
      if Valid(t) then Some(t) else None
    else None
  }

  /** `t.strftime("%Y-%m-%d")`. */
  function FormatDate(t: DateTime): string
    requires Valid(t)
  {
    Pad4(t.year) + "-" + Pad2(t.month) + "-" + Pad2(t.day)
  }

  /** `t.strftime("%Y-%m-%d %H:%M:%S")`. */
  function FormatTimestamp(t: DateTime): string
    requires Valid(t)
  {
    FormatDate(t) + " " + Pad2(t.hour) + ":" + Pad2(t.minute) + ":" + Pad2(t.second)
  }

  /** Parsing what was formatted gives back the same day. */
  lemma ParseFormatDate(t: DateTime)
    requires Valid(t) && IsMidnight(t)
    ensures ParseDate(FormatDate(t)) == Some(t)
  {
    var s := FormatDate(t);
    Pad4Reads(t.year);
    Pad2Reads(t.month);
    Pad2Reads(t.day);
    assert s[0..4] == Pad4(t.year) && s[5..7] == Pad2(t.month) && s[8..10] == Pad2(t.day);
    assert DateShape(s);
  }

  /** Parsing what was formatted gives back the same time. */
  lemma ParseFormatTimestamp(t: DateTime)
    requires Valid(t)
    ensures ParseTimestamp(FormatTimestamp(t)) == Some(t)
  {
    var s := FormatTimestamp(t);
    Pad4Reads(t.year);
    Pad2Reads(t.month);
    Pad2Reads(t.day);
    Pad2Reads(t.hour);
    Pad2Reads(t.minute);
    Pad2Reads(t.second);
    assert s[0..4] == Pad4(t.year) && s[5..7] == Pad2(t.month) && s[8..10] == Pad2(t.day);
    assert s[11..13] == Pad2(t.hour) && s[14..16] == Pad2(t.minute) && s[17..19] == Pad2(t.second);
    assert DateShape(s);
  }

  /** The only text that parses to a day is its canonical zero-padded form. */
  lemma FormatParseDate(s: string)
    requires ParseDate(s).Some?
    ensures FormatDate(ParseDate(s).value) == s
  {
    Number4Prints(s, 0);
    Number2Prints(s, 5);
    Number2Prints(s, 8);
    assert s == s[0..4] + "-" + s[5..7] + "-" + s[8..10];
  }

  /** The only text that parses to a time is its canonical zero-padded form. */
  lemma FormatParseTimestamp(s: string)
    requires ParseTimestamp(s).Some?
    ensures FormatTimestamp(ParseTimestamp(s).value) == s
  {
    Number4Prints(s, 0);
    Number2Prints(s, 5);
    Number2Prints(s, 8);
    Number2Prints(s, 11);
    Number2Prints(s, 14);
    Number2Prints(s, 17);
    assert s == s[0..4] + "-" + s[5..7] + "-" + s[8..10] + " " + s[11..13] + ":" + s[14..16] + ":" + s[17..19];
  }

  /** A day followed by " 00:00:00" is a timestamp for midnight of that day. */
  lemma ParseMidnightTimestamp(day: string)
    requires ParseDate(day).Some?
    ensures ParseTimestamp(day + " 00:00:00") == ParseDate(day)
  {
    var s := day + " 00:00:00";
    assert forall k :: 0 <= k < 10 ==> s[k] == day[k];
    assert s[10..] == " 00:00:00";
    assert DigitsAt(s, 11, 2) && DigitsAt(s, 14, 2) && DigitsAt(s, 17, 2);
  }
}
