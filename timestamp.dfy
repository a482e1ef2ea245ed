/**
 * `datetime.strptime(text, '%Y-%m-%dT%H:%M%z')` as CPython 3.12's `_strptime` performs it,
 * and the conversion of the aware result to an absolute instant so that comparing two
 * timestamps is comparing two integers.
 *
 * Each directive accepts what its regular expression in `_strptime` accepts:
 *   %Y  four digits
 *   %m  `1[0-2] | 0[1-9] | [1-9]`
 *   %d  `3[01] | [12]\d | 0[1-9] | [1-9] | ' '[1-9]`
 *   %H  `2[0-3] | [01]\d | \d`
 *   %M  `[0-5]\d | \d`
 *   %z  `Z`, or a sign, two hour digits, an optional ':', two minute digits, then optionally
 *       an optional ':', two second digits and optionally a '.' with one to six fraction digits
 * The pattern is matched case-insensitively (so the literal `T` also matches `t`), except
 * that `Z` must be upper case, and it must consume the whole text. The colons of an offset
 * must be used consistently, the offset must be strictly less than a day in magnitude,
 * and the date must exist in the proleptic Gregorian calendar with a year from 1 to 9999.
 */
module Timestamp {
  import opened Wrappers

  /** A parsed timestamp: wall-clock fields and the UTC offset in microseconds east of UTC. */
  datatype Stamp = Stamp(year: int, month: int, day: int, hour: int, minute: int, offset: int)

  const MicrosPerSecond: int := 1_000_000
  const MicrosPerMinute: int := 60_000_000
  const MicrosPerHour: int := 3_600_000_000
  const MicrosPerDay: int := 86_400_000_000

  // ---------------------------------------------------------------- calendar

  predicate IsLeapYear(y: int) {
    y % 4 == 0 && (y % 100 != 0 || y % 400 == 0)
  }

  function DaysInMonth(y: int, m: int): (n: int)
    requires 1 <= m <= 12
    ensures 28 <= n <= 31
  {
    if m == 2 then (if IsLeapYear(y) then 29 else 28)
    else if m == 4 || m == 6 || m == 9 || m == 11 then 30
    else 31
  }

  function DaysInYear(y: int): int {
    if IsLeapYear(y) then 366 else 365
  }

  /** The fields name a real moment: a date of the calendar, a time of day, an offset under 24 hours. */
  predicate Valid(st: Stamp) {
    && 1 <= st.year <= 9999
    && 1 <= st.month <= 12
    && 1 <= st.day <= DaysInMonth(st.year, st.month)
    && 0 <= st.hour < 24
    && 0 <= st.minute < 60
    && -MicrosPerDay < st.offset < MicrosPerDay
  }

  /** Days from 0001-01-01 to January 1st of year `y`. */
  function DaysBeforeYear(y: int): int
    requires y >= 1
  {
    var p := y - 1;
    365 * p + p / 4 - p / 100 + p / 400
  }

  /** Days from January 1st of year `y` to the first of month `m`. */
  function DaysBeforeMonth(y: int, m: int): int
    requires 1 <= m <= 12
  {
    if m == 1 then 0 else DaysBeforeMonth(y, m - 1) + DaysInMonth(y, m - 1)
  }

  /** Days from 0001-01-01 to the given date (the proleptic Gregorian ordinal, less one). */
  function DayNumber(y: int, m: int, d: int): int
    requires y >= 1 && 1 <= m <= 12
  {
    DaysBeforeYear(y) + DaysBeforeMonth(y, m) + d - 1
  }

  /** The absolute instant a valid timestamp denotes, in microseconds of UTC since 0001-01-01T00:00. */
  function Instant(st: Stamp): int
    requires Valid(st)
  {
    (DayNumber(st.year, st.month, st.day) * 1440 + st.hour * 60 + st.minute) * MicrosPerMinute - st.offset
  }

  // ---------------------------------------------------------------- digits

  predicate IsDigit(c: char) {
    '0' <= c <= '9'
  }

  function Digit(c: char): (d: int)
    requires IsDigit(c)
    ensures 0 <= d <= 9
  {
    c as int - '0' as int
  }

  predicate AllDigits(s: string) {
    forall i :: 0 <= i < |s| ==> IsDigit(s[i])
  }

  /** The decimal value of a string of digits. */
  function Number(s: string): nat
    requires AllDigits(s)
  {
    if s == [] then 0 else Number(s[..|s| - 1]) * 10 + Digit(s[|s| - 1])
  }

  function Pow10(n: nat): (r: nat)
    ensures r >= 1
  {
    if n == 0 then 1 else 10 * Pow10(n - 1)
  }

  // ---------------------------------------------------------------- directives

  /** Splits off a one- or two-character directive field: the text ends at the first separator at index 1 or 2. */
  function SplitField(s: string, seps: set<char>): (r: Option<(string, string)>)
    ensures r.Some? ==> 1 <= |r.value.0| <= 2 && |r.value.0| < |s|
    ensures r.Some? ==> r.value.0 == s[..|r.value.0|] && r.value.1 == s[|r.value.0|..]
    ensures r.Some? ==> s[|r.value.0|] in seps
  {
    if |s| >= 2 && s[1] in seps then Some((s[..1], s[1..]))
    else if |s| >= 3 && s[2] in seps then Some((s[..2], s[2..]))
    else None
  }

  /** `%Y`: exactly four digits. */
  function YearField(t: string): (r: Option<int>)
    ensures r.Some? ==> 0 <= r.value <= 9999
  {
    if |t| == 4 && AllDigits(t) then
      NumberBound(t);
      Some(Number(t))
    else None
  }

  /** `%m`: `1[0-2] | 0[1-9] | [1-9]`. */
  function MonthField(t: string): (r: Option<int>)
    ensures r.Some? ==> 1 <= r.value <= 12
  {
    if |t| == 2 && t[0] == '1' && '0' <= t[1] <= '2' then Some(10 + Digit(t[1]))
    else if |t| == 2 && t[0] == '0' && '1' <= t[1] <= '9' then Some(Digit(t[1]))
    else if |t| == 1 && '1' <= t[0] <= '9' then Some(Digit(t[0]))
    else None
  }

  /** `%d`: `3[01] | [12]\d | 0[1-9] | [1-9] | ' '[1-9]`. */
  function DayField(t: string): (r: Option<int>)
    ensures r.Some? ==> 1 <= r.value <= 31
  {
    if |t| == 2 && t[0] == '3' && '0' <= t[1] <= '1' then Some(30 + Digit(t[1]))
    else if |t| == 2 && '1' <= t[0] <= '2' && IsDigit(t[1]) then Some(10 * Digit(t[0]) + Digit(t[1]))
    else if |t| == 2 && t[0] == '0' && '1' <= t[1] <= '9' then Some(Digit(t[1]))
    else if |t| == 1 && '1' <= t[0] <= '9' then Some(Digit(t[0]))
    else if |t| == 2 && t[0] == ' ' && '1' <= t[1] <= '9' then Some(Digit(t[1]))
    else None
  }

  /** `%H`: `2[0-3] | [01]\d | \d`. */
  function HourField(t: string): (r: Option<int>)
    ensures r.Some? ==> 0 <= r.value <= 23
  {
    if |t| == 2 && t[0] == '2' && '0' <= t[1] <= '3' then Some(20 + Digit(t[1]))
    else if |t| == 2 && '0' <= t[0] <= '1' && IsDigit(t[1]) then Some(10 * Digit(t[0]) + Digit(t[1]))
    else if |t| == 1 && IsDigit(t[0]) then Some(Digit(t[0]))
    else None
  }

  /** `%M`: `[0-5]\d | \d`. */
  function MinuteField(t: string): (r: Option<int>)
    ensures r.Some? ==> 0 <= r.value <= 59
  {
    if |t| == 2 && '0' <= t[0] <= '5' && IsDigit(t[1]) then Some(10 * Digit(t[0]) + Digit(t[1]))
    else if |t| == 1 && IsDigit(t[0]) then Some(Digit(t[0]))
    else None
  }

  /**
   * The part of a numeric offset after the minutes: `:?[0-5]\d(\.\d{1,6})?`, in microseconds.
   * `colon` says whether a ':' separated hours from minutes; the seconds must then be
   * introduced by ':' too, and must not be otherwise.
   */
  function SecondsPart(r: string, colon: bool): (us: Option<int>)
    ensures us.Some? ==> 0 <= us.value < MicrosPerMinute
  {
    var colon2 := |r| > 0 && r[0] == ':';
    var q := if colon2 then 1 else 0;
    if colon2 != colon then None
    else if |r| < q + 2 || !('0' <= r[q] <= '5') || !IsDigit(r[q + 1]) then None
    else
      var seconds := 10 * Digit(r[q]) + Digit(r[q + 1]);
      var frac := r[q + 2..];
      if frac == [] then Some(seconds * MicrosPerSecond)
      else if frac[0] == '.' && 1 <= |frac| - 1 <= 6 && AllDigits(frac[1..]) then
        FractionBound(frac[1..]);
        Some(seconds * MicrosPerSecond + Number(frac[1..]) * Pow10(6 - (|frac| - 1)))
      else None
  }

  /** The microseconds a fraction of `|f|` digits stands for stay under one second. */
  lemma FractionBound(f: string)
    requires AllDigits(f) && 1 <= |f| <= 6
    ensures 0 <= Number(f) * Pow10(6 - |f|) < MicrosPerSecond
  {
    NumberBound(f);
    var n := Number(f);
    var k := 6 - |f|;
    assert Pow10(|f|) * Pow10(k) == 1_000_000 by {
      PowAdd(|f|, k);
    }
    assert n * Pow10(k) < Pow10(|f|) * Pow10(k) by {
      assert n < Pow10(|f|);
      MulStrict(n, Pow10(|f|), Pow10(k));
    }
  }

  lemma MulStrict(a: int, b: int, c: int)
    requires 0 <= a < b && c >= 1
    ensures a * c < b * c
  {
  }

  lemma {:induction false} PowAdd(a: nat, b: nat)
    ensures Pow10(a) * Pow10(b) == Pow10(a + b)
  {
    if a > 0 {
      PowAdd(a - 1, b);
    }
  }

  lemma {:induction false} NumberBound(s: string)
    requires AllDigits(s)
    ensures Number(s) < Pow10(|s|)
  {
    if s != [] {
      NumberBound(s[..|s| - 1]);
    }
  }

  /** A numeric offset without its sign: hours, optional ':', minutes, then the optional seconds part. */
  function OffsetMagnitude(b: string): (us: Option<int>)
    ensures us.Some? ==> us.value >= 0
  {
    if |b| < 4 || !IsDigit(b[0]) || !IsDigit(b[1]) then None
    else
      var colon := b[2] == ':';
      var p := if colon then 3 else 2;
      if |b| < p + 2 || !('0' <= b[p] <= '5') || !IsDigit(b[p + 1]) then None
      else
        var hours := 10 * Digit(b[0]) + Digit(b[1]);
        var minutes := 10 * Digit(b[p]) + Digit(b[p + 1]);
        var hm := hours * MicrosPerHour + minutes * MicrosPerMinute;
        var rest := b[p + 2..];
        if rest == [] then Some(hm)
        else
          var seconds :- SecondsPart(rest, colon);
          Some(hm + seconds)
  }

  /** `%z`: `Z` is UTC; a signed offset must be strictly less than 24 hours, as `datetime.timezone` demands. */
  function ZoneField(z: string): (r: Option<int>)
    ensures r.Some? ==> -MicrosPerDay < r.value < MicrosPerDay
  {
    if z == "Z" then Some(0)
    else if |z| >= 1 && (z[0] == '+' || z[0] == '-') then
      var magnitude :- OffsetMagnitude(z[1..]);
      if magnitude < MicrosPerDay then Some(if z[0] == '-' then -magnitude else magnitude) else None
    else None
  }

  /** The `%H:%M%z` part of the format: hour, minute and offset. */
  function ParseClock(t: string): (r: Option<(int, int, int)>)
    ensures r.Some? ==> 0 <= r.value.0 <= 23 && 0 <= r.value.1 <= 59 && -MicrosPerDay < r.value.2 < MicrosPerDay
  {
    var h :- SplitField(t, {':'});
    var hour :- HourField(h.0);
    var mi :- SplitField(h.1[1..], {'+', '-', 'Z'});
    var minute :- MinuteField(mi.0);
    var offset :- ZoneField(mi.1);
    Some((hour, minute, offset))
  }

  /** The `%m-%dT%H:%M%z` part of the format: month, day and the clock part. */
  function ParseMonthDay(t: string): (r: Option<(int, int, (int, int, int))>)
    ensures r.Some? ==> 1 <= r.value.0 <= 12 && 1 <= r.value.1 <= 31
    ensures r.Some? ==> 0 <= r.value.2.0 <= 23 && 0 <= r.value.2.1 <= 59 && -MicrosPerDay < r.value.2.2 < MicrosPerDay
  {
    var m :- SplitField(t, {'-'});
    var month :- MonthField(m.0);
    var d :- SplitField(m.1[1..], {'T', 't'});
    var day :- DayField(d.0);
    var clock :- ParseClock(d.1[1..]);
    Some((month, day, clock))
  }

  /**
   * `datetime.strptime(s, "%Y-%m-%dT%H:%M%z")`: the text must match the whole format, and the
   * date it names must exist (year 1 or later, a day the month has); `None` stands for the
   * `ValueError` it raises.
   */
  function Parse(s: string): (r: Option<Stamp>)
    ensures r.Some? ==> Valid(r.value)
  {
    if |s| < 5 || s[4] != '-' then None
    else
      var year :- YearField(s[..4]);
      var date :- ParseMonthDay(s[5..]);
      var (month, day, clock) := date;
      if 1 <= year && day <= DaysInMonth(year, month) then Some(Stamp(year, month, day, clock.0, clock.1, clock.2))
      else None
  }

  // ---------------------------------------------------------------- ordering

  /** `a` comes strictly before `b` on the wall clock: lexicographic on year, month, day, hour, minute. */
  predicate Before(a: Stamp, b: Stamp) {
    || a.year < b.year
    || (a.year == b.year && a.month < b.month)
    || (a.year == b.year && a.month == b.month && a.day < b.day)
    || (a.year == b.year && a.month == b.month && a.day == b.day && a.hour < b.hour)
    || (a.year == b.year && a.month == b.month && a.day == b.day && a.hour == b.hour && a.minute < b.minute)
  }

  /** A year is as long as the gap between its first day and the next year's. */
  lemma YearLength(y: int)
    requires y >= 1
    ensures DaysBeforeYear(y + 1) == DaysBeforeYear(y) + DaysInYear(y)
  {
    var p := y - 1;
    assert (p + 1) / 4 - p / 4 == (if y % 4 == 0 then 1 else 0);
    assert (p + 1) / 100 - p / 100 == (if y % 100 == 0 then 1 else 0);
    assert (p + 1) / 400 - p / 400 == (if y % 400 == 0 then 1 else 0);
  }

  lemma {:induction false} YearsAscend(y1: int, y2: int)
    requires 1 <= y1 < y2
    ensures DaysBeforeYear(y1) + DaysInYear(y1) <= DaysBeforeYear(y2)
    decreases y2 - y1
  {
    YearLength(y1);
    if y1 + 1 < y2 {
      YearsAscend(y1 + 1, y2);
    }
  }

  /** The twelve months fill the year exactly. */
  lemma MonthsFillYear(y: int)
    ensures DaysBeforeMonth(y, 12) + DaysInMonth(y, 12) == DaysInYear(y)
  {
    var leap := if IsLeapYear(y) then 1 else 0;
    assert DaysBeforeMonth(y, 2) == 31;
    assert DaysBeforeMonth(y, 3) == 59 + leap;
    assert DaysBeforeMonth(y, 4) == 90 + leap;
    assert DaysBeforeMonth(y, 5) == 120 + leap;
    assert DaysBeforeMonth(y, 6) == 151 + leap;
    assert DaysBeforeMonth(y, 7) == 181 + leap;
    assert DaysBeforeMonth(y, 8) == 212 + leap;
    assert DaysBeforeMonth(y, 9) == 243 + leap;
    assert DaysBeforeMonth(y, 10) == 273 + leap;
    assert DaysBeforeMonth(y, 11) == 304 + leap;
    assert DaysBeforeMonth(y, 12) == 334 + leap;
  }

  lemma {:induction false} MonthsAscend(y: int, m1: int, m2: int)
    requires 1 <= m1 < m2 <= 12
    ensures DaysBeforeMonth(y, m1) + DaysInMonth(y, m1) <= DaysBeforeMonth(y, m2)
    decreases m2 - m1
  {
    if m1 + 1 < m2 {
      MonthsAscend(y, m1 + 1, m2);
    }
  }

  /** The day of a valid date falls inside its year. */
  lemma DayInsideYear(y: int, m: int, d: int)
    requires 1 <= m <= 12 && 1 <= d <= DaysInMonth(y, m)
    ensures 0 <= DaysBeforeMonth(y, m) + d - 1 < DaysInYear(y)
  {
    MonthsFillYear(y);
    if m < 12 {
      MonthsAscend(y, m, 12);
    }
    NonNegativeMonths(y, m);
  }

  lemma {:induction false} NonNegativeMonths(y: int, m: int)
    requires 1 <= m <= 12
    ensures DaysBeforeMonth(y, m) >= 0
  {
    if m > 1 {
      NonNegativeMonths(y, m - 1);
    }
  }

  /** A date that comes earlier in the calendar has a smaller day number. */
  lemma DateOrder(a: Stamp, b: Stamp)
    requires Valid(a) && Valid(b)
    requires a.year < b.year || (a.year == b.year && a.month < b.month)
          || (a.year == b.year && a.month == b.month && a.day < b.day)
    ensures DayNumber(a.year, a.month, a.day) < DayNumber(b.year, b.month, b.day)
  {
    DayInsideYear(a.year, a.month, a.day);
    DayInsideYear(b.year, b.month, b.day);
    if a.year < b.year {
      YearsAscend(a.year, b.year);
    } else if a.month < b.month {
      MonthsAscend(a.year, a.month, b.month);
    }
  }

  lemma BeforeImpliesEarlier(a: Stamp, b: Stamp)
    requires Valid(a) && Valid(b) && a.offset == b.offset && Before(a, b)
    ensures Instant(a) < Instant(b)
  {
    var da := DayNumber(a.year, a.month, a.day);
    var db := DayNumber(b.year, b.month, b.day);
    if a.year != b.year || a.month != b.month || a.day != b.day {
      DateOrder(a, b);
      assert da * 1440 + a.hour * 60 + a.minute < db * 1440 + b.hour * 60 + b.minute;
    }
  }

  /**
   * For two timestamps with the same UTC offset, the instant order is the wall-clock
   * order: comparing instants is comparing the fields lexicographically.
   */
  lemma InstantOrder(a: Stamp, b: Stamp)
    requires Valid(a) && Valid(b) && a.offset == b.offset
    ensures Instant(a) < Instant(b) <==> Before(a, b)
  {
    if Before(a, b) {
      BeforeImpliesEarlier(a, b);
    } else if Before(b, a) {
      BeforeImpliesEarlier(b, a);
    } else {
      assert a == b;
    }
  }

  // ---------------------------------------------------------------- formatting

  function DigitChar(d: int): char
    requires 0 <= d <= 9
  {
    ('0' as int + d) as char
  }

  /** `n` written with exactly two digits. */
  function Pad2(n: int): string
    requires 0 <= n < 100
  {
    [DigitChar(n / 10), DigitChar(n % 10)]
  }

  /** The low `width` decimal digits of `n`, zero-padded. */
  function PadDigits(n: nat, width: nat): string {
    if width == 0 then [] else PadDigits(n / 10, width - 1) + [DigitChar(n % 10)]
  }

  /** The seconds and microseconds of an offset, omitted when zero. */
  function SecondsText(u: int): string
    requires 0 <= u < MicrosPerMinute
  {
    if u == 0 then ""
    else Pad2(u / MicrosPerSecond) + (if u % MicrosPerSecond == 0 then "" else "." + PadDigits(u % MicrosPerSecond, 6))
  }

  /** A UTC offset as `Z` or `+HHMM`, with seconds and microseconds only when present. */
  function FormatZone(o: int): string
    requires -MicrosPerDay < o < MicrosPerDay
  {
    if o == 0 then "Z"
    else
      var m := if o < 0 then -o else o;
      var k := m / MicrosPerMinute;
      [if o < 0 then '-' else '+'] + (Pad2(k / 60) + (Pad2(k % 60) + SecondsText(m % MicrosPerMinute)))
  }

  /**
   * The `YYYY-MM-DDTHH:MM<zone>` text of the given fields, each written with its full width of
   * digits; the fields need not name a real date.
   */
  function FieldsText(year: int, month: int, day: int, hour: int, minute: int, offset: int): string
    requires 0 <= year <= 9999 && 0 <= month < 100 && 0 <= day < 100 && 0 <= hour < 100 && 0 <= minute < 100
    requires -MicrosPerDay < offset < MicrosPerDay
  {
    PadDigits(year, 4) + ("-" + (Pad2(month) + ("-" + (Pad2(day) + ("T" +
      (Pad2(hour) + (":" + (Pad2(minute) + FormatZone(offset)))))))))
  }

  /** The canonical text of a timestamp. */
  function Format(st: Stamp): string
    requires Valid(st)
  {
    FieldsText(st.year, st.month, st.day, st.hour, st.minute, st.offset)
  }

  lemma {:induction false} PadDigitsNumber(n: nat, width: nat)
    requires n < Pow10(width)
    ensures |PadDigits(n, width)| == width && AllDigits(PadDigits(n, width))
    ensures Number(PadDigits(n, width)) == n
  {
    if width > 0 {
      PadDigitsNumber(n / 10, width - 1);
      var s := PadDigits(n, width);
      assert s[..|s| - 1] == PadDigits(n / 10, width - 1);
    }
  }

  lemma SplitPad2(n: int, rest: string, seps: set<char>)
    requires 0 <= n < 100 && |rest| >= 1 && rest[0] in seps
    requires forall c :: c in seps ==> !IsDigit(c)
    ensures SplitField(Pad2(n) + rest, seps) == Some((Pad2(n), rest))
  {
    var s := Pad2(n) + rest;
    assert s[..2] == Pad2(n) && s[2..] == rest;
  }

  /** Each two-digit field reader accepts exactly the numbers of its range. */
  lemma Pad2Fields(n: int)
    requires 0 <= n < 100
    ensures MonthField(Pad2(n)) == if 1 <= n <= 12 then Some(n) else None
    ensures DayField(Pad2(n)) == if 1 <= n <= 31 then Some(n) else None
    ensures HourField(Pad2(n)) == if n <= 23 then Some(n) else None
    ensures MinuteField(Pad2(n)) == if n <= 59 then Some(n) else None
  {
  }

  lemma SecondsRoundTrip(u: int)
    requires 0 < u < MicrosPerMinute
    ensures SecondsPart(SecondsText(u), false) == Some(u)
  {
    var t := SecondsText(u);
    var f := u % MicrosPerSecond;
    if f != 0 {
      PadDigitsNumber(f, 6);
      var frac := "." + PadDigits(f, 6);
      assert t[2..] == frac;
      assert frac[1..] == PadDigits(f, 6);
    } else {
      assert t[2..] == [];
    }
  }

  /** Reading `HHMM` followed by `t`, for two-digit hours and minutes written without a colon. */
  lemma OffsetMagnitudeDigits(hh: int, mm: int, t: string)
    requires 0 <= hh < 100 && 0 <= mm < 60
    ensures var hm := hh * MicrosPerHour + mm * MicrosPerMinute;
            OffsetMagnitude(Pad2(hh) + (Pad2(mm) + t))
              == if t == [] then Some(hm)
                 else match SecondsPart(t, false)
                      case None => None
                      case Some(x) => Some(hm + x)
  {
    var b := Pad2(hh) + (Pad2(mm) + t);
    assert b[0] == DigitChar(hh / 10) && b[1] == DigitChar(hh % 10);
    assert b[2] == DigitChar(mm / 10) && b[3] == DigitChar(mm % 10);
    assert b[4..] == t;
  }

  /** The split of a magnitude into hours, minutes and the rest, as `FormatZone` writes it. */
  lemma MagnitudeParts(m: int)
    requires 0 < m < MicrosPerDay
    ensures m / MicrosPerMinute / 60 < 24
    ensures m == (m / MicrosPerMinute / 60) * MicrosPerHour + (m / MicrosPerMinute % 60) * MicrosPerMinute
                 + m % MicrosPerMinute
  {
  }

  /** The digits of an offset's magnitude read back as that magnitude. */
  lemma MagnitudeRoundTrip(m: int)
    requires 0 < m < MicrosPerDay
    ensures OffsetMagnitude(Pad2(m / MicrosPerMinute / 60) + (Pad2(m / MicrosPerMinute % 60)
              + SecondsText(m % MicrosPerMinute))) == Some(m)
  {
    var u := m % MicrosPerMinute;
    MagnitudeParts(m);
    OffsetMagnitudeDigits(m / MicrosPerMinute / 60, m / MicrosPerMinute % 60, SecondsText(u));
    if u != 0 {
      SecondsRoundTrip(u);
    }
  }

  /** Formatting an offset and reading it back gives the offset. */
  lemma ZoneRoundTrip(o: int)
    requires -MicrosPerDay < o < MicrosPerDay
    ensures ZoneField(FormatZone(o)) == Some(o)
  {
    if o != 0 {
      var z := FormatZone(o);
      var m := if o < 0 then -o else o;
      var b := Pad2(m / MicrosPerMinute / 60) + (Pad2(m / MicrosPerMinute % 60) + SecondsText(m % MicrosPerMinute));
      assert z[1..] == b;
      MagnitudeRoundTrip(m);
    }
  }

  lemma SplitAppend(a: string, b: string)
    ensures (a + b)[..|a|] == a && (a + b)[|a|..] == b
  {
  }

  /** The clock part, with two-digit hour and minute, parses exactly when both are in range. */
  lemma ParseClockFields(hour: int, minute: int, offset: int)
    requires 0 <= hour < 100 && 0 <= minute < 100 && -MicrosPerDay < offset < MicrosPerDay
    ensures ParseClock(Pad2(hour) + (":" + (Pad2(minute) + FormatZone(offset))))
              == if hour <= 23 && minute <= 59 then Some((hour, minute, offset)) else None
  {
    var zone := FormatZone(offset);
    var r4 := Pad2(minute) + zone;
    SplitPad2(hour, ":" + r4, {':'});
    assert (":" + r4)[1..] == r4;
    SplitPad2(minute, zone, {'+', '-', 'Z'});
    Pad2Fields(hour);
    Pad2Fields(minute);
    ZoneRoundTrip(offset);
  }

  /** The month, day and clock parts parse exactly when every field is in its range. */
  lemma ParseMonthDayFields(month: int, day: int, hour: int, minute: int, offset: int)
    requires 0 <= month < 100 && 0 <= day < 100 && 0 <= hour < 100 && 0 <= minute < 100
    requires -MicrosPerDay < offset < MicrosPerDay
    ensures var r3 := Pad2(hour) + (":" + (Pad2(minute) + FormatZone(offset)));
            ParseMonthDay(Pad2(month) + ("-" + (Pad2(day) + ("T" + r3))))
              == if 1 <= month <= 12 && 1 <= day <= 31 && hour <= 23 && minute <= 59
                 then Some((month, day, (hour, minute, offset))) else None
  {
    var r3 := Pad2(hour) + (":" + (Pad2(minute) + FormatZone(offset)));
    var r2 := Pad2(day) + ("T" + r3);
    SplitPad2(month, "-" + r2, {'-'});
    assert ("-" + r2)[1..] == r2;
    SplitPad2(day, "T" + r3, {'T', 't'});
    assert ("T" + r3)[1..] == r3;
    Pad2Fields(month);
    Pad2Fields(day);
    ParseClockFields(hour, minute, offset);
  }

  /**
   * Text of the format's shape parses exactly when its fields name a valid timestamp: a year
   * `0000`, a month or day out of range, a day the month lacks (such as February 29th outside
   * a leap year), an hour or a minute out of range are all rejected.
   */
  lemma ParseFields(year: int, month: int, day: int, hour: int, minute: int, offset: int)
    requires 0 <= year <= 9999 && 0 <= month < 100 && 0 <= day < 100 && 0 <= hour < 100 && 0 <= minute < 100
    requires -MicrosPerDay < offset < MicrosPerDay
    ensures var st := Stamp(year, month, day, hour, minute, offset);
            Parse(FieldsText(year, month, day, hour, minute, offset)) == if Valid(st) then Some(st) else None
  {
    var r3 := Pad2(hour) + (":" + (Pad2(minute) + FormatZone(offset)));
    var r1 := Pad2(month) + ("-" + (Pad2(day) + ("T" + r3)));
    var y := PadDigits(year, 4);
    var s := FieldsText(year, month, day, hour, minute, offset);
    PadDigitsNumber(year, 4);
    assert s == y + ("-" + r1);
    SplitAppend(y, "-" + r1);
    SplitAppend("-", r1);
    assert YearField(s[..4]) == Some(year);
    ParseMonthDayFields(month, day, hour, minute, offset);
  }

  /** Formatting a valid timestamp and parsing the text back gives the same timestamp. */
  lemma ParseFormat(st: Stamp)
    requires Valid(st)
    ensures Parse(Format(st)) == Some(st)
  {
    ParseFields(st.year, st.month, st.day, st.hour, st.minute, st.offset);
  }

  /** February 29th parses exactly in leap years: in 2024, say, but not in 2023. */
  lemma LeapDay(year: int)
    requires 1 <= year <= 9999
    ensures Parse(FieldsText(year, 2, 29, 0, 0, 0)).Some? <==> IsLeapYear(year)
  {
    ParseFields(year, 2, 29, 0, 0, 0);
  }

  /** `%z` rejects a `±HHMM[SS[.ffffff]]` offset of 24 hours or more, whatever its seconds. */
  lemma ZoneRejectsFullDay(sign: char, hh: int, mm: int, u: int)
    requires sign == '+' || sign == '-'
    requires 24 <= hh < 100 && 0 <= mm < 60 && 0 <= u < MicrosPerMinute
    ensures ZoneField([sign] + (Pad2(hh) + (Pad2(mm) + SecondsText(u)))) == None
  {
    var z := [sign] + (Pad2(hh) + (Pad2(mm) + SecondsText(u)));
    assert z[1..] == Pad2(hh) + (Pad2(mm) + SecondsText(u));
    OffsetMagnitudeDigits(hh, mm, SecondsText(u));
    if u != 0 {
      SecondsRoundTrip(u);
    }
  }

  /** `%z` rejects a `±HH:MM` offset of 24 hours or more. */
  lemma ZoneRejectsFullDayColon(sign: char, hh: int, mm: int)
    requires sign == '+' || sign == '-'
    requires 24 <= hh < 100 && 0 <= mm < 60
    ensures ZoneField([sign] + (Pad2(hh) + (":" + Pad2(mm)))) == None
  {
    var z := [sign] + (Pad2(hh) + (":" + Pad2(mm)));
    var b := z[1..];
    assert b == Pad2(hh) + (":" + Pad2(mm));
    assert |b| == 5 && b[2] == ':';
    assert b[0] == DigitChar(hh / 10) && b[1] == DigitChar(hh % 10);
    assert b[3] == DigitChar(mm / 10) && b[4] == DigitChar(mm % 10);
    assert b[5..] == [];
  }
}
