/**
 * Calendar arithmetic behind `isFutureWeekend` (src/monitor.ts:27-31).
 *
 * A `YYYY-MM-DD` string is read as midnight UTC of that day, as the date
 * constructor does for a date-only ISO form. Time values are milliseconds since
 * 1970-01-01T00:00:00Z; days are counted from that same epoch, which fell on a
 * Thursday, so the weekday of day number `n` is `(n + 4) % 7` with 0 = Sunday.
 */
module Calendar {

  import opened Wrappers

  const MS_PER_DAY: int := 86_400_000

  // ---------------------------------------------------------------------------
  // Proleptic Gregorian calendar
  // ---------------------------------------------------------------------------

  predicate IsLeapYear(y: int) {
    y % 4 == 0 && (y % 100 != 0 || y % 400 == 0)
  }

  function DaysInMonth(y: int, m: int): (n: int)
    requires 1 <= m <= 12
    ensures 28 <= n <= 31
  {
    if m == 2 then (if IsLeapYear(y) then 29 else 28)
    else if m == 4 || m == 6 || m == 9 || m == 11 then 30
    else 31
  }

  predicate ValidDate(y: int, m: int, d: int) {
    1 <= m <= 12 && 1 <= d <= DaysInMonth(y, m)
  }

  /** Signed count of leap years in 1 .. y-1 (negative counts for years before 1). */
  function LeapYearsBefore(y: int): int {
    (y - 1) / 4 - (y - 1) / 100 + (y - 1) / 400
  }

  /** Number of days from 1970-01-01 to January 1st of year `y`. */
  function DaysBeforeYear(y: int): int {
    365 * (y - 1970) + LeapYearsBefore(y) - LeapYearsBefore(1970)
  }

  /** Number of days from January 1st of year `y` to the first of month `m`. */
  function DaysBeforeMonth(y: int, m: int): int
    requires 1 <= m <= 12
  {
    var common :=
      if m == 1 then 0 else if m == 2 then 31 else if m == 3 then 59
      else if m == 4 then 90 else if m == 5 then 120 else if m == 6 then 151
      else if m == 7 then 181 else if m == 8 then 212 else if m == 9 then 243
      else if m == 10 then 273 else if m == 11 then 304 else 334;
    if m > 2 && IsLeapYear(y) then common + 1 else common
  }

  /** Day number of a calendar date: days since 1970-01-01. */
  function DaysFromCivil(y: int, m: int, d: int): int
    requires 1 <= m <= 12
  {
    DaysBeforeYear(y) + DaysBeforeMonth(y, m) + d - 1
  }

  /** Weekday of a day number, 0 = Sunday .. 6 = Saturday. */
  function Weekday(day: int): (w: int)
    ensures 0 <= w < 7
  {
    (day + 4) % 7
  }

  /** The calendar date that follows (y, m, d). */
  function NextDate(y: int, m: int, d: int): (r: (int, int, int))
    requires ValidDate(y, m, d)
    ensures ValidDate(r.0, r.1, r.2)
  {
    if d < DaysInMonth(y, m) then (y, m, d + 1)
    else if m < 12 then (y, m + 1, 1)
    else (y + 1, 1, 1)
  }

  lemma DivStep4(y: int)
    ensures y / 4 - (y - 1) / 4 == if y % 4 == 0 then 1 else 0
  {
  }

  lemma DivStep100(y: int)
    ensures y / 100 - (y - 1) / 100 == if y % 100 == 0 then 1 else 0
  {
  }

  lemma DivStep400(y: int)
    ensures y / 400 - (y - 1) / 400 == if y % 400 == 0 then 1 else 0
  {
  }

  /** Year `y` adds one leap year to the count exactly when it is a leap year itself. */
  lemma LeapStep(y: int)
    ensures LeapYearsBefore(y + 1) - LeapYearsBefore(y) == if IsLeapYear(y) then 1 else 0
  {
    DivStep4(y);
    DivStep100(y);
    DivStep400(y);
    if IsLeapYear(y) {
      assert y % 4 == 0;
    }
  }

  /** A year has 366 days exactly when it is a leap year. */
  lemma YearLength(y: int)
    ensures DaysBeforeYear(y + 1) - DaysBeforeYear(y) == if IsLeapYear(y) then 366 else 365
  {
    LeapStep(y);
    assert DaysBeforeYear(y + 1) - DaysBeforeYear(y) == 365 + LeapYearsBefore(y + 1) - LeapYearsBefore(y);
  }

  /**
   * Consecutive calendar dates have consecutive day numbers; with the epoch
   * being day 0 this pins DaysFromCivil down as the day count of the calendar.
   */
  lemma NextDateIsNextDay(y: int, m: int, d: int)
    requires ValidDate(y, m, d)
    ensures var n := NextDate(y, m, d);
      DaysFromCivil(n.0, n.1, n.2) == DaysFromCivil(y, m, d) + 1
  {
    if d == DaysInMonth(y, m) && m == 12 {
      YearLength(y);
    }
  }

  /** Day `day + 1` falls on the weekday after that of `day`, Saturday wrapping to Sunday. */
  lemma WeekdayStep(day: int)
    ensures Weekday(day + 1) == (Weekday(day) + 1) % 7
  {
    var q, r := (day + 4) / 7, (day + 4) % 7;
    assert day + 4 == 7 * q + r;
    if r < 6 {
      assert day + 5 == 7 * q + (r + 1);
    } else {
      assert day + 5 == 7 * (q + 1);
    }
  }

  /** The weekday advances by one, cyclically, from one date to the next. */
  lemma NextDateNextWeekday(y: int, m: int, d: int)
    requires ValidDate(y, m, d)
    ensures var n := NextDate(y, m, d);
      Weekday(DaysFromCivil(n.0, n.1, n.2)) == (Weekday(DaysFromCivil(y, m, d)) + 1) % 7
  {
    NextDateIsNextDay(y, m, d);
    WeekdayStep(DaysFromCivil(y, m, d));
  }

  // ---------------------------------------------------------------------------
  // The `YYYY-MM-DD` form
  // ---------------------------------------------------------------------------

  predicate IsDigit(c: char) {
    '0' <= c <= '9'
  }

  predicate AllDigits(s: string) {
    forall i :: 0 <= i < |s| ==> IsDigit(s[i])
  }

  /** Decimal value of a string of digits. */
  function DigitsValue(s: string): nat
    requires AllDigits(s)
  {
    if s == [] then 0
    else 10 * DigitsValue(s[..|s| - 1]) + (s[|s| - 1] as int - '0' as int)
  }

  function DigitChar(n: int): (c: char)
    requires 0 <= n < 10
    ensures IsDigit(c)
  {
    ('0' as int + n) as char
  }

  /** `n` written with exactly `width` decimal digits, leading zeros included. */
  function PadDigits(n: nat, width: nat): (s: string)
    ensures |s| == width && AllDigits(s)
  {
    if width == 0 then [] else PadDigits(n / 10, width - 1) + [DigitChar(n % 10)]
  }

  function Pow10(k: nat): (p: nat)
    ensures p >= 1
  {
    if k == 0 then 1 else 10 * Pow10(k - 1)
  }

  lemma {:induction false} PadDigitsValue(n: nat, width: nat)
    requires n < Pow10(width)
    ensures DigitsValue(PadDigits(n, width)) == n
  {
    if width > 0 {
      var s := PadDigits(n, width);
      assert s[..|s| - 1] == PadDigits(n / 10, width - 1);
      PadDigitsValue(n / 10, width - 1);
    }
  }

  /**
   * Reads a `YYYY-MM-DD` string as the day number of its date; `None` when the
   * string is not of that form or names no calendar date (the date constructor
   * then yields an invalid date, and every comparison with it is false).
   */
  function ParseDate(s: string): Option<int> {
    if |s| == 10 && s[4] == '-' && s[7] == '-'
       && AllDigits(s[..4]) && AllDigits(s[5..7]) && AllDigits(s[8..])
    then
      var y, m, d := DigitsValue(s[..4]), DigitsValue(s[5..7]), DigitsValue(s[8..]);
      if ValidDate(y, m, d) then Some(DaysFromCivil(y, m, d)) else None
    else None
  }

  /** A string the parser accepts is ten characters, each a digit or '-'. */
  lemma ParseDateChars(s: string)
    requires ParseDate(s).Some?
    ensures |s| == 10 && forall i :: 0 <= i < |s| ==> IsDigit(s[i]) || s[i] == '-'
  {
    forall i | 0 <= i < |s| ensures IsDigit(s[i]) || s[i] == '-' {
      if i < 4 {
        assert s[..4][i] == s[i];
      } else if 4 < i < 7 {
        assert s[5..7][i - 5] == s[i];
      } else if 7 < i {
        assert s[8..][i - 8] == s[i];
      }
    }
  }

  function FormatDate(y: nat, m: nat, d: nat): (s: string)
    ensures |s| == 10
  {
    PadDigits(y, 4) + "-" + PadDigits(m, 2) + "-" + PadDigits(d, 2)
  }

  /** Reading back a formatted date gives the day number of that date. */
  lemma ParseFormatDate(y: nat, m: nat, d: nat)
    requires y <= 9999 && ValidDate(y, m, d)
    ensures ParseDate(FormatDate(y, m, d)) == Some(DaysFromCivil(y, m, d))
  {
    var s := FormatDate(y, m, d);
    assert s[..4] == PadDigits(y, 4);
    assert s[5..7] == PadDigits(m, 2);
    assert s[8..] == PadDigits(d, 2);
    PadDigitsValue(y, 4);
    PadDigitsValue(m, 2);
    PadDigitsValue(d, 2);
  }

  /** A string of digits is the padded numeral of its own value. */
  lemma {:induction false} DigitsPadValue(s: string)
    requires AllDigits(s)
    ensures DigitsValue(s) < Pow10(|s|) && PadDigits(DigitsValue(s), |s|) == s
  {
    if s != [] {
      var init := s[..|s| - 1];
      var c := s[|s| - 1];
      assert AllDigits(init) by {
        forall i | 0 <= i < |init| ensures IsDigit(init[i]) {
          assert init[i] == s[i];
        }
      }
      DigitsPadValue(init);
      var v := DigitsValue(init);
      var n := DigitsValue(s);
      assert n == 10 * v + (c as int - '0' as int);
      assert n / 10 == v && n % 10 == c as int - '0' as int;
      assert DigitChar(n % 10) == c;
      assert s == init + [c];
    }
  }

  /** A string of the `YYYY-MM-DD` shape is the formatted form of its three numbers. */
  lemma FormattedFields(s: string)
    requires |s| == 10 && s[4] == '-' && s[7] == '-'
    requires AllDigits(s[..4]) && AllDigits(s[5..7]) && AllDigits(s[8..])
    ensures DigitsValue(s[..4]) <= 9999
    ensures s == FormatDate(DigitsValue(s[..4]), DigitsValue(s[5..7]), DigitsValue(s[8..]))
  {
    DigitsPadValue(s[..4]);
    DigitsPadValue(s[5..7]);
    DigitsPadValue(s[8..]);
    assert Pow10(4) == 10000;
    assert s == s[..4] + "-" + s[5..7] + "-" + s[8..];
  }

  /**
   * The converse of ParseFormatDate: a string the parser accepts is the
   * `YYYY-MM-DD` form of a valid date of years 0-9999, and its value is that
   * date's day number.
   */
  lemma ParseDateIsFormatted(s: string)
    requires ParseDate(s).Some?
    ensures exists y: nat, m: nat, d: nat ::
      y <= 9999 && ValidDate(y, m, d) && s == FormatDate(y, m, d)
      && ParseDate(s) == Some(DaysFromCivil(y, m, d))
  {
    FormattedFields(s);
    var y, m, d := DigitsValue(s[..4]), DigitsValue(s[5..7]), DigitsValue(s[8..]);
    assert y <= 9999 && ValidDate(y, m, d) && s == FormatDate(y, m, d)
      && ParseDate(s) == Some(DaysFromCivil(y, m, d));
  }

  // ---------------------------------------------------------------------------
  // isFutureWeekend
  // ---------------------------------------------------------------------------

  /** The day number of the UTC date that contains time value `now`. */
  function Today(now: int): int {
    now / MS_PER_DAY
  }

  /**
   * A date string counts when its midnight lies strictly after `now` and it
   * falls on a Saturday (6) or a Sunday (0).
   */
  predicate IsFutureWeekend(dateStr: string, now: int) {
    match ParseDate(dateStr)
    case None => false
    case Some(day) => day * MS_PER_DAY > now && (Weekday(day) == 6 || Weekday(day) == 0)
  }

  /**
   * A string passes the filter exactly when it names a Saturday or Sunday
   * that comes after today's UTC date: today itself and past days never pass.
   */
  lemma FutureWeekendIff(dateStr: string, now: int)
    ensures IsFutureWeekend(dateStr, now) <==>
      ParseDate(dateStr).Some? && ParseDate(dateStr).value > Today(now)
      && Weekday(ParseDate(dateStr).value) in {0, 6}
  {
    if ParseDate(dateStr).Some? {
      var day := ParseDate(dateStr).value;
      if day > Today(now) {
        assert day * MS_PER_DAY >= (Today(now) + 1) * MS_PER_DAY;
      } else {
        assert day * MS_PER_DAY <= Today(now) * MS_PER_DAY;
      }
    }
  }
}
