/** Session timestamps: the fixed-width text `YYYY-MM-DDTHH:MM:SS` the schedule API uses,
    what `datetime.strptime(s, "%Y-%m-%dT%H:%M:%S")` makes of it, the `strftime` formats of the
    export, and the whole-minute difference `(end - start).seconds // 60`. */
module Timestamps {
  import opened Strings

  datatype Date = Date(year: int, month: int, day: int)
  datatype Time = Time(hour: int, minute: int, second: int)

  predicate IsDigit(c: char) {
    '0' <= c <= '9'
  }

  predicate AllDigits(s: string) {
    forall i :: 0 <= i < |s| ==> IsDigit(s[i])
  }

  function DigitValue(c: char): nat
    requires IsDigit(c)
  {
    c as int - '0' as int
  }

  /** The number a string of decimal digits denotes. */
  function DecimalValue(s: string): nat
    requires AllDigits(s)
    decreases |s|
  {
    if |s| == 0 then 0 else DecimalValue(s[..|s| - 1]) * 10 + DigitValue(s[|s| - 1])
  }

  /** Digits and separators in the places of `YYYY-MM-DDTHH:MM:SS`. */
  predicate Shaped(s: string) {
    && |s| == 19
    && AllDigits(s[0..4]) && s[4] == '-' && AllDigits(s[5..7]) && s[7] == '-' && AllDigits(s[8..10])
    && s[10] == 'T'
    && AllDigits(s[11..13]) && s[13] == ':' && AllDigits(s[14..16]) && s[16] == ':' && AllDigits(s[17..19])
  }

  /** `start_datetime.date()`. */
  function ParseDate(s: string): Date
    requires Shaped(s)
  {
    Date(DecimalValue(s[0..4]), DecimalValue(s[5..7]), DecimalValue(s[8..10]))
  }

  /** `start_datetime.time()`. */
  function ParseTime(s: string): Time
    requires Shaped(s)
  {
    Time(DecimalValue(s[11..13]), DecimalValue(s[14..16]), DecimalValue(s[17..19]))
  }

  predicate IsLeapYear(year: int) {
    year % 4 == 0 && (year % 100 != 0 || year % 400 == 0)
  }

  function DaysInMonth(year: int, month: int): (n: int)
    requires 1 <= month <= 12
    ensures 28 <= n <= 31
  {
    if month == 2 then (if IsLeapYear(year) then 29 else 28)
    else if month == 4 || month == 6 || month == 9 || month == 11 then 30
    else 31
  }

  predicate ValidDate(d: Date) {
    1 <= d.year <= 9999 && 1 <= d.month <= 12 && 1 <= d.day <= DaysInMonth(d.year, d.month)
  }

  predicate ValidTime(t: Time) {
    0 <= t.hour < 24 && 0 <= t.minute < 60 && 0 <= t.second < 60
  }

  /** A canonical timestamp that `strptime` accepts: the right shape, naming a real date and time. */
  predicate WellFormed(s: string) {
    Shaped(s) && ValidDate(ParseDate(s)) && ValidTime(ParseTime(s))
  }

  // ---------------------------------------------------------------------------------------
  // Chronological order, as Python compares `date`, `time` and `datetime` values.

  predicate DateLess(a: Date, b: Date) {
    a.year < b.year || (a.year == b.year && (a.month < b.month || (a.month == b.month && a.day < b.day)))
  }

  predicate TimeLess(a: Time, b: Time) {
    a.hour < b.hour || (a.hour == b.hour && (a.minute < b.minute || (a.minute == b.minute && a.second < b.second)))
  }

  /** The instant `(da, ta)` comes before the instant `(db, tb)`. */
  predicate InstantLess(da: Date, ta: Time, db: Date, tb: Time) {
    DateLess(da, db) || (da == db && TimeLess(ta, tb))
  }

  /** For digit strings of equal length, text order is numeric order and equal text is equal value. */
  lemma {:induction false} DigitsOrder(x: string, y: string)
    requires |x| == |y| && AllDigits(x) && AllDigits(y)
    ensures LexLess(x, y) <==> DecimalValue(x) < DecimalValue(y)
    ensures x == y <==> DecimalValue(x) == DecimalValue(y)
    decreases |x|
  {
    if |x| == 0 {
      assert x == y;
    } else {
      var n := |x| - 1;
      assert AllDigits(x[..n]) && AllDigits(y[..n]);
      DigitsOrder(x[..n], y[..n]);
      LexLessSplit(x, y, n);
      assert x[n..] == [x[n]] && y[n..] == [y[n]];
      assert LexLess([x[n]], [y[n]]) <==> x[n] < y[n];
      assert x == x[..n] + [x[n]] && y == y[..n] + [y[n]];
    }
  }

  /** Comparing from position `i` on: a common character can be skipped. */
  lemma SkipCommon(a: string, b: string, i: nat)
    requires i < |a| && i < |b| && a[i] == b[i]
    ensures LexLess(a[i..], b[i..]) <==> LexLess(a[i + 1..], b[i + 1..])
  {
    assert a[i..][1..] == a[i + 1..] && b[i..][1..] == b[i + 1..];
  }

  /** Comparing from position `i` on: the next `k` characters are compared first. */
  lemma SplitField(a: string, b: string, i: nat, k: nat)
    requires i + k <= |a| && i + k <= |b|
    ensures LexLess(a[i..], b[i..]) <==>
      LexLess(a[i..i + k], b[i..i + k]) || (a[i..i + k] == b[i..i + k] && LexLess(a[i + k..], b[i + k..]))
  {
    LexLessSplit(a[i..], b[i..], k);
    assert a[i..][..k] == a[i..i + k] && b[i..][..k] == b[i..i + k];
    assert a[i..][k..] == a[i + k..] && b[i..][k..] == b[i + k..];
  }

  /** Comparing one digit field and then the rest. */
  lemma DigitField(a: string, b: string, i: nat, k: nat)
    requires i + k <= |a| && i + k <= |b|
    requires AllDigits(a[i..i + k]) && AllDigits(b[i..i + k])
    ensures LexLess(a[i..], b[i..]) <==>
      DecimalValue(a[i..i + k]) < DecimalValue(b[i..i + k])
      || (DecimalValue(a[i..i + k]) == DecimalValue(b[i..i + k]) && LexLess(a[i + k..], b[i + k..]))
  {
    SplitField(a, b, i, k);
    DigitsOrder(a[i..i + k], b[i..i + k]);
  }

  /** The date fields are compared first, then the text from the hour on. */
  lemma DateFieldsOrder(a: string, b: string)
    requires Shaped(a) && Shaped(b)
    ensures LexLess(a, b) <==>
      DateLess(ParseDate(a), ParseDate(b)) || (ParseDate(a) == ParseDate(b) && LexLess(a[11..], b[11..]))
  {
    assert a[0..] == a && b[0..] == b;
    DigitField(a, b, 0, 4);
    SkipCommon(a, b, 4);
    DigitField(a, b, 5, 2);
    SkipCommon(a, b, 7);
    DigitField(a, b, 8, 2);
    SkipCommon(a, b, 10);
  }

  /** The text from the hour on compares as the time of day. */
  lemma TimeFieldsOrder(a: string, b: string)
    requires Shaped(a) && Shaped(b)
    ensures LexLess(a[11..], b[11..]) <==> TimeLess(ParseTime(a), ParseTime(b))
  {
    DigitField(a, b, 11, 2);
    SkipCommon(a, b, 13);
    DigitField(a, b, 14, 2);
    SkipCommon(a, b, 16);
    DigitField(a, b, 17, 2);
    assert a[19..] == [] && b[19..] == [];
  }

  /** Because the timestamps are fixed-width, Python's `sorted()` on the strings sorts them
      chronologically: one timestamp sorts before another exactly when its instant is earlier. */
  lemma LexOrderIsChronological(a: string, b: string)
    requires Shaped(a) && Shaped(b)
    ensures LexLess(a, b) <==> InstantLess(ParseDate(a), ParseTime(a), ParseDate(b), ParseTime(b))
  {
    DateFieldsOrder(a, b);
    TimeFieldsOrder(a, b);
  }

  /** Two timestamps naming the same instant are the same string. */
  lemma ParseInjective(a: string, b: string)
    requires Shaped(a) && Shaped(b)
    requires ParseDate(a) == ParseDate(b) && ParseTime(a) == ParseTime(b)
    ensures a == b
  {
    if a != b {
      LexLessTotal(a, b);
      LexOrderIsChronological(a, b);
      LexOrderIsChronological(b, a);
    }
  }

  // ---------------------------------------------------------------------------------------
  // `strftime("%m/%d")` and `strftime("%H:%M")`.

  function Digit(n: int): char
    requires 0 <= n <= 9
  {
    ('0' as int + n) as char
  }

  /** A zero-padded two-digit field; reading it back gives the number. */
  function Pad2(n: int): (s: string)
    requires 0 <= n < 100
    ensures |s| == 2 && AllDigits(s) && DecimalValue(s) == n
  {
    var s := [Digit(n / 10), Digit(n % 10)];
    assert s[..1] == [Digit(n / 10)] && s[..1][..0] == [];
    assert DecimalValue(s[..1]) == n / 10;
    s
  }

  /** Reading two digits and padding the number gives back the digits. */
  lemma Pad2OfDigits(s: string)
    requires |s| == 2 && AllDigits(s)
    ensures DecimalValue(s) < 100 && Pad2(DecimalValue(s)) == s
  {
    assert s[..1] == [s[0]] && s[..1][..0] == [];
    assert DecimalValue(s[..1]) == DigitValue(s[0]);
    assert DecimalValue(s) == DigitValue(s[0]) * 10 + DigitValue(s[1]);
  }

  /** `date.strftime("%m/%d")`. */
  function FormatMonthDay(d: Date): string
    requires 0 <= d.month < 100 && 0 <= d.day < 100
  {
    Pad2(d.month) + "/" + Pad2(d.day)
  }

  /** `time.strftime("%H:%M")`. */
  function FormatHourMinute(t: Time): string
    requires 0 <= t.hour < 100 && 0 <= t.minute < 100
  {
    Pad2(t.hour) + ":" + Pad2(t.minute)
  }

  /** The "MM/DD" of a parsed timestamp is the month and day text of the timestamp itself. */
  lemma FormatMonthDayOfParsed(s: string)
    requires Shaped(s)
    ensures ParseDate(s).month < 100 && ParseDate(s).day < 100
    ensures FormatMonthDay(ParseDate(s)) == s[5..7] + "/" + s[8..10]
  {
    Pad2OfDigits(s[5..7]);
    Pad2OfDigits(s[8..10]);
  }

  /** The "HH:MM" of a parsed timestamp is the hour and minute text of the timestamp itself. */
  lemma FormatHourMinuteOfParsed(s: string)
    requires Shaped(s)
    ensures ParseTime(s).hour < 100 && ParseTime(s).minute < 100
    ensures FormatHourMinute(ParseTime(s)) == s[11..13] + ":" + s[14..16]
  {
    Pad2OfDigits(s[11..13]);
    Pad2OfDigits(s[14..16]);
  }

  // ---------------------------------------------------------------------------------------
  // `end - start` as a `timedelta`.

  /** `date.toordinal()`: days since 0001-01-01 (day 1) in the proleptic Gregorian calendar. */
  function Ordinal(d: Date): int
    requires 1 <= d.month <= 12
  {
    var y := d.year - 1;
    var daysBeforeYear := y * 365 + y / 4 - y / 100 + y / 400;
    var cumulative := [0, 31, 59, 90, 120, 151, 181, 212, 243, 273, 304, 334];
    var daysBeforeMonth := cumulative[d.month - 1] + (if d.month > 2 && IsLeapYear(d.year) then 1 else 0);
    daysBeforeYear + daysBeforeMonth + d.day
  }

  function SecondsOfDay(t: Time): int {
    t.hour * 3600 + t.minute * 60 + t.second
  }

  /** `(end - start).total_seconds()` for two canonical timestamps. */
  function ElapsedSeconds(start: string, end: string): int
    requires WellFormed(start) && WellFormed(end)
  {
    (Ordinal(ParseDate(end)) - Ordinal(ParseDate(start))) * 86400
      + SecondsOfDay(ParseTime(end)) - SecondsOfDay(ParseTime(start))
  }

  /** `timedelta.seconds`: a `timedelta` keeps whole days apart and normalises the remaining
      seconds into `0 <= seconds < 86400`, rounding the day count down. */
  function TimedeltaSeconds(totalSeconds: int): (seconds: int)
    ensures 0 <= seconds < 86400
    ensures exists days: int :: totalSeconds == days * 86400 + seconds
  {
    var days := if totalSeconds >= 0 then totalSeconds / 86400 else -((-totalSeconds + 86399) / 86400);
    var seconds := totalSeconds - days * 86400;
    assert totalSeconds == days * 86400 + seconds;
    seconds
  }
}
