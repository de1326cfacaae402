/** Naive datetimes as Python's `datetime` module handles them: the proleptic
    Gregorian calendar of section 5.7 of RFC 3339, `strptime(s, '%Y-%m-%d')`,
    `isoformat()` and whole-day arithmetic. */
module Dates {
  import opened Wrappers
  import opened Text

  datatype Date = Date(year: int, month: int, day: int)

  predicate IsLeapYear(y: int) {
    y % 4 == 0 && (y % 100 != 0 || y % 400 == 0)
  }

  function DaysInMonth(y: int, m: int): int
    requires 1 <= m <= 12
  {
    if m == 2 then (if IsLeapYear(y) then 29 else 28)
    else if m == 4 || m == 6 || m == 9 || m == 11 then 30
    else 31
  }

  /** A date `datetime` accepts: years 1 to 9999, and the day limits of section 5.7 of RFC 3339. */
  predicate ValidDate(d: Date) {
    1 <= d.year <= 9999 && 1 <= d.month <= 12 && 1 <= d.day <= DaysInMonth(d.year, d.month)
  }

  const MicrosPerDay: int := 86_400_000_000

  /** A naive `datetime`: a calendar date and the microseconds elapsed since its midnight. */
  datatype DateTime = DateTime(date: Date, micros: int)

  predicate ValidDateTime(t: DateTime) {
    ValidDate(t.date) && 0 <= t.micros < MicrosPerDay
  }

  /** `datetime.combine(d, time.min)`. */
  function Midnight(d: Date): DateTime {
    DateTime(d, 0)
  }

  /** The midnight that starts `t`'s day. */
  function StartOfDay(t: DateTime): (r: DateTime)
    ensures r.date == t.date && r.micros == 0
  {
    Midnight(t.date)
  }

  predicate DateBefore(a: Date, b: Date) {
    a.year < b.year
    || (a.year == b.year && (a.month < b.month || (a.month == b.month && a.day < b.day)))
  }

  /** `a < b` on datetimes. */
  predicate Before(a: DateTime, b: DateTime) {
    DateBefore(a.date, b.date) || (a.date == b.date && a.micros < b.micros)
  }

  /** `a <= b` on datetimes. */
  predicate NotAfter(a: DateTime, b: DateTime) {
    Before(a, b) || a == b
  }

  /** `Before` is a strict total order. */
  lemma BeforeIsStrictTotalOrder(a: DateTime, b: DateTime, c: DateTime)
    ensures !Before(a, a)
    ensures Before(a, b) ==> !Before(b, a)
    ensures Before(a, b) && Before(b, c) ==> Before(a, c)
    ensures a == b || Before(a, b) || Before(b, a)
  {
  }

  /** Number of decimal digits of width `w` can hold. */
  function Pow10(w: nat): (p: nat)
    ensures p >= 1
  {
    if w == 0 then 1 else 10 * Pow10(w - 1)
  }

  /** `n` written with exactly `w` digits, zero-padded (`%0wd`). */
  function Pad(n: nat, w: nat): (s: string)
    requires n < Pow10(w)
    ensures |s| == w && AllDigits(s)
  {
    if w == 0 then "" else Pad(n / 10, w - 1) + [DigitChar(n % 10)]
  }

  lemma {:induction false} PadRoundTrip(n: nat, w: nat)
    requires n < Pow10(w)
    ensures DigitsValue(Pad(n, w)) == n
    decreases w
  {
    if w > 0 {
      var s := Pad(n, w);
      assert s[..|s| - 1] == Pad(n / 10, w - 1);
      PadRoundTrip(n / 10, w - 1);
    }
  }

  /** The RFC 3339 full-date `YYYY-MM-DD` of section 5.6. */
  function FormatYmd(d: Date): (s: string)
    requires ValidDate(d)
    ensures |s| == 10
  {
    Pad(d.year, 4) + "-" + Pad(d.month, 2) + "-" + Pad(d.day, 2)
  }

  /** A string shaped like an RFC 3339 full-date: `4DIGIT "-" 2DIGIT "-" 2DIGIT`. */
  predicate IsFullDateShape(s: string) {
    |s| == 10 && AllDigits(s[..4]) && s[4] == '-' && AllDigits(s[5..7]) && s[7] == '-'
    && AllDigits(s[8..])
  }

  /** A month as `%m` reads it: `1[0-2]|0[1-9]|[1-9]`. */
  predicate MonthToken(s: string) {
    (|s| == 1 && '1' <= s[0] <= '9')
    || (|s| == 2 && ((s[0] == '1' && '0' <= s[1] <= '2') || (s[0] == '0' && '1' <= s[1] <= '9')))
  }

  /** A day as `%d` reads it: `3[01]|[12]\d|0[1-9]|[1-9]| [1-9]`. */
  predicate DayToken(s: string) {
    (|s| == 1 && '1' <= s[0] <= '9')
    || (|s| == 2
        && ((s[0] == '3' && '0' <= s[1] <= '1')
            || ('1' <= s[0] <= '2' && IsDigit(s[1]))
            || (s[0] == '0' && '1' <= s[1] <= '9')
            || (s[0] == ' ' && '1' <= s[1] <= '9')))
  }

  function TokenValue(s: string): nat
    requires MonthToken(s) || DayToken(s)
  {
    if s[0] == ' ' then DigitValue(s[1]) else DigitsValue(s)
  }

  /** `datetime.strptime(s, '%Y-%m-%d').date()`, or `None` where it raises `ValueError`:
      four digits, `-`, a month token, `-`, a day token, nothing after, and a date
      `datetime` accepts. */
  function ParseYmd(s: string): (r: Option<Date>)
    ensures r.Some? ==> ValidDate(r.value)
    ensures r.Some? ==> 8 <= |s| <= 10 && s[4] == '-'
  {
    if |s| < 8 || !AllDigits(s[..4]) || s[4] != '-' then None
    else
      var k := if s[6] == '-' then 6 else 7;
      if s[k] != '-' then None
      else
        var m := s[5..k];
        var d := s[k + 1..];
        if !MonthToken(m) || !DayToken(d) then None
        else
          var date := Date(DigitsValue(s[..4]), TokenValue(m), TokenValue(d));
          if ValidDate(date) then Some(date) else None
  }

  /** Every RFC 3339 full-date of a valid date is read back as that date. */
  lemma ParseFormatRoundTrip(d: Date)
    requires ValidDate(d)
    ensures ParseYmd(FormatYmd(d)) == Some(d)
  {
    var s := FormatYmd(d);
    assert s[..4] == Pad(d.year, 4);
    assert s[5..7] == Pad(d.month, 2);
    assert s[8..] == Pad(d.day, 2);
    PadRoundTrip(d.year, 4);
    PadRoundTrip(d.month, 2);
    PadRoundTrip(d.day, 2);
    var m := Pad(d.month, 2);
    var dd := Pad(d.day, 2);
    assert DigitsValue(m) == d.month;
    assert DigitsValue(dd) == d.day;
    assert m[0] == DigitChar(d.month / 10) && m[1] == DigitChar(d.month % 10);
    assert dd[0] == DigitChar(d.day / 10) && dd[1] == DigitChar(d.day % 10);
  }

  /** Conversely, a full-date-shaped string that parses is the formatting of what it parses to. */
  lemma FormatParseRoundTrip(s: string)
    requires IsFullDateShape(s) && ParseYmd(s).Some?
    ensures FormatYmd(ParseYmd(s).value) == s
  {
    var d := ParseYmd(s).value;
    ParseFormatRoundTrip(d);
    var t := FormatYmd(d);
    PadDigitsInjective(s[..4], t[..4]);
    PadDigitsInjective(s[5..7], t[5..7]);
    PadDigitsInjective(s[8..], t[8..]);
    assert s == s[..4] + "-" + s[5..7] + "-" + s[8..];
    assert t == t[..4] + "-" + t[5..7] + "-" + t[8..];
  }

  /** Two equally long digit strings with the same value are equal. */
  lemma {:induction false} PadDigitsInjective(a: string, b: string)
    requires |a| == |b| && AllDigits(a) && AllDigits(b) && DigitsValue(a) == DigitsValue(b)
    ensures a == b
    decreases |a|
  {
    if a != [] {
      var n := |a| - 1;
      assert DigitValue(a[n]) == DigitValue(b[n]);
      PadDigitsInjective(a[..n], b[..n]);
      assert a == a[..n] + [a[n]] && b == b[..n] + [b[n]];
    }
  }

  /** `datetime.isoformat()`: `YYYY-MM-DDTHH:MM:SS`, with `.ffffff` when there are microseconds. */
  function IsoFormat(t: DateTime): (s: string)
    requires ValidDateTime(t)
  {
    var secs := t.micros / 1_000_000;
    var us := t.micros % 1_000_000;
    FormatYmd(t.date) + "T" + Pad(secs / 3600, 2) + ":" + Pad(secs / 60 % 60, 2) + ":"
    + Pad(secs % 60, 2) + (if us == 0 then "" else "." + Pad(us, 6))
  }

  /** The ISO text starts with the full-date of `t`'s day, which reads back as that day,
      followed by `T`; it has microseconds exactly when `t` does. */
  lemma IsoFormatStartsWithDate(t: DateTime)
    requires ValidDateTime(t)
    ensures |IsoFormat(t)| == (if t.micros % 1_000_000 == 0 then 19 else 26)
    ensures ParseYmd(IsoFormat(t)[..10]) == Some(t.date)
    ensures IsoFormat(t)[10] == 'T'
  {
    var s := IsoFormat(t);
    assert s[..10] == FormatYmd(t.date);
    ParseFormatRoundTrip(t.date);
  }

  /** The day after `d`; `None` past 9999-12-31, where `datetime` raises `OverflowError`. */
  function NextDay(d: Date): (r: Option<Date>)
    requires ValidDate(d)
    ensures r.Some? ==> ValidDate(r.value) && DateBefore(d, r.value)
    ensures r.None? <==> d == Date(9999, 12, 31)
  {
    if d.day < DaysInMonth(d.year, d.month) then Some(Date(d.year, d.month, d.day + 1))
    else if d.month < 12 then Some(Date(d.year, d.month + 1, 1))
    else if d.year < 9999 then Some(Date(d.year + 1, 1, 1))
    else None
  }

  /** No valid date lies strictly between a date and the next. */
  lemma NextDayIsSuccessor(d: Date, e: Date)
    requires ValidDate(d) && ValidDate(e) && NextDay(d).Some?
    ensures DateBefore(d, e) <==> (e == NextDay(d).value || DateBefore(NextDay(d).value, e))
  {
  }

  /** The day before `d`; `None` before 0001-01-01. */
  function PrevDay(d: Date): (r: Option<Date>)
    requires ValidDate(d)
    ensures r.Some? ==> ValidDate(r.value) && DateBefore(r.value, d)
    ensures r.None? <==> d == Date(1, 1, 1)
  {
    if d.day > 1 then Some(Date(d.year, d.month, d.day - 1))
    else if d.month > 1 then Some(Date(d.year, d.month - 1, DaysInMonth(d.year, d.month - 1)))
    else if d.year > 1 then Some(Date(d.year - 1, 12, 31))
    else None
  }

  /** Going back one day undoes going forward one. */
  lemma PrevNextDay(d: Date)
    requires ValidDate(d) && NextDay(d).Some?
    ensures PrevDay(NextDay(d).value) == Some(d)
  {
  }

  /** `t - timedelta(days=n)`; `None` where it would fall before year 1. */
  function MinusDays(t: DateTime, n: nat): (r: Option<DateTime>)
    requires ValidDateTime(t)
    ensures r.Some? ==> ValidDateTime(r.value) && r.value.micros == t.micros
    ensures r.Some? && n > 0 ==> Before(r.value, t)
    decreases n
  {
    if n == 0 then Some(t)
    else match PrevDay(t.date)
      case None => None
      case Some(p) => MinusDays(DateTime(p, t.micros), n - 1)
  }
}
