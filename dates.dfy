/**
 * The calendar arithmetic behind Go's `time` package as the journal uses it:
 * the "2006-01-02" full-date layout (section 5.6 of RFC 3339), the RFC 3339
 * timestamp layout, and the calendar day an instant falls on.
 *
 * An instant is a whole number of seconds since 0000-01-01T00:00:00Z in the
 * proleptic Gregorian calendar, always read in UTC.
 */
module Dates {
  import opened Wrappers
  import opened Text

  datatype Date = Date(year: nat, month: nat, day: nat)

  const SecondsPerDay := 86400

  predicate IsLeapYear(y: nat) {
    y % 4 == 0 && (y % 100 != 0 || y % 400 == 0)
  }

  function DaysInYear(y: nat): nat {
    if IsLeapYear(y) then 366 else 365
  }

  function DaysInMonth(y: nat, m: nat): nat
    requires 1 <= m <= 12
  {
    if m == 2 then (if IsLeapYear(y) then 29 else 28)
    else if m == 4 || m == 6 || m == 9 || m == 11 then 30
    else 31
  }

  /** A real calendar day: a month of the year and a day of that month. */
  predicate ValidDate(d: Date) {
    1 <= d.month <= 12 && 1 <= d.day <= DaysInMonth(d.year, d.month)
  }

  /** Days from 0000-01-01 to the first day of year `y`. */
  function DaysBeforeYear(y: nat): nat {
    if y == 0 then 0 else DaysBeforeYear(y - 1) + DaysInYear(y - 1)
  }

  /** Days from the first of January to the first of month `m` of year `y`. */
  function DaysBeforeMonth(y: nat, m: nat): nat
    requires 1 <= m <= 13
  {
    if m == 1 then 0 else DaysBeforeMonth(y, m - 1) + DaysInMonth(y, m - 1)
  }

  lemma {:induction false} DaysBeforeMonthBounds(y: nat, m: nat)
    requires 1 <= m <= 13
    ensures DaysBeforeMonth(y, m) + (if m <= 12 then DaysInMonth(y, m) else 0) <= DaysInYear(y)
    ensures m == 13 ==> DaysBeforeMonth(y, m) == DaysInYear(y)
    decreases 13 - m
  {
    if m < 13 {
      DaysBeforeMonthBounds(y, m + 1);
    } else {
      assert DaysBeforeMonth(y, 13) == DaysBeforeMonth(y, 12) + DaysInMonth(y, 12);
      assert DaysBeforeMonth(y, 12) == DaysBeforeMonth(y, 11) + DaysInMonth(y, 11);
      assert DaysBeforeMonth(y, 11) == DaysBeforeMonth(y, 10) + DaysInMonth(y, 10);
      assert DaysBeforeMonth(y, 10) == DaysBeforeMonth(y, 9) + DaysInMonth(y, 9);
      assert DaysBeforeMonth(y, 9) == DaysBeforeMonth(y, 8) + DaysInMonth(y, 8);
      assert DaysBeforeMonth(y, 8) == DaysBeforeMonth(y, 7) + DaysInMonth(y, 7);
      assert DaysBeforeMonth(y, 7) == DaysBeforeMonth(y, 6) + DaysInMonth(y, 6);
      assert DaysBeforeMonth(y, 6) == DaysBeforeMonth(y, 5) + DaysInMonth(y, 5);
      assert DaysBeforeMonth(y, 5) == DaysBeforeMonth(y, 4) + DaysInMonth(y, 4);
      assert DaysBeforeMonth(y, 4) == DaysBeforeMonth(y, 3) + DaysInMonth(y, 3);
      assert DaysBeforeMonth(y, 3) == DaysBeforeMonth(y, 2) + DaysInMonth(y, 2);
    }
  }

  /** Number of the day `d` counted from 0000-01-01, which is day 0. */
  function DayNumber(d: Date): nat
    requires ValidDate(d)
  {
    DaysBeforeYear(d.year) + DaysBeforeMonth(d.year, d.month) + d.day - 1
  }

  /** The first instant of day `d` (Go's time.Parse of a bare date gives midnight UTC). */
  function StartOfDay(d: Date): nat
    requires ValidDate(d)
  {
    DayNumber(d) * SecondsPerDay
  }

  /** Go's zero time.Time, 0001-01-01T00:00:00Z. */
  const ZeroTime: nat := StartOfDay(Date(1, 1, 1))

  /** The year holding day `n`, searching from year `y` where `n` days remain. */
  function YearOf(n: nat, y: nat): (r: (nat, nat))
    ensures r.0 >= y && r.1 < DaysInYear(r.0)
    ensures DaysBeforeYear(r.0) + r.1 == DaysBeforeYear(y) + n
    decreases n
  {
    if n < DaysInYear(y) then (y, n) else YearOf(n - DaysInYear(y), y + 1)
  }

  /** The month of year `y` holding day `r` of the year, searching from month `m`. */
  function MonthOf(y: nat, r: nat, m: nat): (mr: (nat, nat))
    requires 1 <= m <= 12
    requires DaysBeforeMonth(y, m) + r < DaysInYear(y)
    ensures m <= mr.0 <= 12 && mr.1 < DaysInMonth(y, mr.0)
    ensures DaysBeforeMonth(y, mr.0) + mr.1 == DaysBeforeMonth(y, m) + r
    decreases 12 - m
  {
    DaysBeforeMonthBounds(y, m + 1);
    if m == 12 then
      DaysBeforeMonthBounds(y, 13);
      (12, r)
    else if r < DaysInMonth(y, m) then (m, r)
    else MonthOf(y, r - DaysInMonth(y, m), m + 1)
  }

  /** The calendar date of day number `n`. */
  function DateOfDay(n: nat): (d: Date)
    ensures ValidDate(d) && DayNumber(d) == n
  {
    var (y, r) := YearOf(n, 0);
    var (m, k) := MonthOf(y, r, 1);
    Date(y, m, k + 1)
  }

  /** The calendar date (in UTC) of instant `ts`. */
  function DateOf(ts: nat): (d: Date)
    ensures ValidDate(d)
  {
    DateOfDay(ts / SecondsPerDay)
  }

  /** An instant lies within the 24 hours of its calendar day. */
  lemma DateOfBounds(ts: nat)
    ensures StartOfDay(DateOf(ts)) <= ts < StartOfDay(DateOf(ts)) + SecondsPerDay
  {
    assert DayNumber(DateOf(ts)) == ts / SecondsPerDay;
  }

  lemma {:induction false} DaysBeforeYearMonotonic(y: nat, z: nat)
    requires y < z
    ensures DaysBeforeYear(y) + DaysInYear(y) <= DaysBeforeYear(z)
    decreases z - y
  {
    if y + 1 < z {
      DaysBeforeYearMonotonic(y + 1, z);
    }
  }

  lemma {:induction false} DaysBeforeMonthMonotonic(y: nat, m: nat, k: nat)
    requires 1 <= m < k <= 13
    ensures DaysBeforeMonth(y, m) + DaysInMonth(y, m) <= DaysBeforeMonth(y, k)
    decreases k - m
  {
    if m + 1 < k {
      DaysBeforeMonthMonotonic(y, m + 1, k);
    }
  }

  /** Different calendar days have different day numbers. */
  lemma DayNumberInjective(d: Date, e: Date)
    requires ValidDate(d) && ValidDate(e) && DayNumber(d) == DayNumber(e)
    ensures d == e
  {
    DaysBeforeMonthBounds(d.year, d.month);
    DaysBeforeMonthBounds(e.year, e.month);
    if d.year < e.year {
      DaysBeforeYearMonotonic(d.year, e.year);
      assert false;
    } else if e.year < d.year {
      DaysBeforeYearMonotonic(e.year, d.year);
      assert false;
    } else if d.month < e.month {
      DaysBeforeMonthMonotonic(d.year, d.month, e.month);
      assert false;
    } else if e.month < d.month {
      DaysBeforeMonthMonotonic(d.year, e.month, d.month);
      assert false;
    }
  }

  /** An instant falls on day `d` exactly when it lies in `d`'s 24 hours. */
  lemma DateOfIff(ts: nat, d: Date)
    requires ValidDate(d)
    ensures DateOf(ts) == d <==> StartOfDay(d) <= ts < StartOfDay(d) + SecondsPerDay
  {
    var e := DateOf(ts);
    if StartOfDay(d) <= ts < StartOfDay(d) + SecondsPerDay {
      assert DayNumber(d) == ts / SecondsPerDay == DayNumber(e);
      DayNumberInjective(d, e);
    }
  }

  function Pow10(k: nat): nat {
    if k == 0 then 1 else 10 * Pow10(k - 1)
  }

  lemma {:induction false} NatDigitsLength(n: nat, k: nat)
    requires n >= Pow10(k)
    ensures |NatDigits(n)| > k
  {
    if k > 0 {
      NatDigitsLength(n / 10, k - 1);
    }
  }

  /** The day an instant falls on prints as `s` exactly when the instant lies in the day `s` names. */
  lemma DateKeyIff(ts: nat, s: string, d: Date)
    requires ParseDate(s) == Some(d)
    ensures DateKey(ts) == s <==> StartOfDay(d) <= ts < StartOfDay(d) + SecondsPerDay
  {
    var e := DateOf(ts);
    DateOfIff(ts, d);
    FormatParseDate(s);
    if DateKey(ts) == s {
      if e.year < 10000 {
        ParseFormatDate(e);
      } else {
        NatDigitsLength(e.year, 4);
      }
    }
  }

  /** Two decimal digits, zero-padded. */
  function Two(n: nat): string
    requires n < 100
  {
    [DigitChar(n / 10), DigitChar(n % 10)]
  }

  /** Four decimal digits, zero-padded. */
  function Four(n: nat): string
    requires n < 10000
  {
    [DigitChar(n / 1000), DigitChar(n / 100 % 10), DigitChar(n / 10 % 10), DigitChar(n % 10)]
  }

  /** Go's "2006-01-02" layout: the year takes at least four digits. */
  function FormatDate(d: Date): string
    requires ValidDate(d)
  {
    (if d.year < 10000 then Four(d.year) else NatDigits(d.year)) + "-" + Two(d.month) + "-" + Two(d.day)
  }

  /** The "2006-01-02" text of the day instant `ts` falls on. */
  function DateKey(ts: nat): string {
    FormatDate(DateOf(ts))
  }

  lemma DecimalValueSnoc(s: string, c: char)
    requires AllDigits(s) && IsDigit(c)
    ensures AllDigits(s + [c]) && DecimalValue(s + [c]) == 10 * DecimalValue(s) + DigitValue(c)
  {
    assert (s + [c])[..|s|] == s;
  }

  lemma TwoDigits(s: string)
    requires |s| == 2 && AllDigits(s)
    ensures DecimalValue(s) == 10 * DigitValue(s[0]) + DigitValue(s[1])
  {
    DecimalValueSnoc([], s[0]);
    DecimalValueSnoc([s[0]], s[1]);
    assert s == [s[0]] + [s[1]];
  }

  lemma FourDigits(s: string)
    requires |s| == 4 && AllDigits(s)
    ensures DecimalValue(s) == 1000 * DigitValue(s[0]) + 100 * DigitValue(s[1]) + 10 * DigitValue(s[2]) + DigitValue(s[3])
  {
    DecimalValueSnoc([], s[0]);
    DecimalValueSnoc([s[0]], s[1]);
    DecimalValueSnoc([s[0], s[1]], s[2]);
    DecimalValueSnoc([s[0], s[1], s[2]], s[3]);
    assert s == [s[0], s[1], s[2]] + [s[3]];
    assert [s[0], s[1], s[2]] == [s[0], s[1]] + [s[2]];
    assert [s[0], s[1]] == [s[0]] + [s[1]];
  }

  lemma TwoRoundTrip(n: nat)
    requires n < 100
    ensures AllDigits(Two(n)) && DecimalValue(Two(n)) == n
  {
    TwoDigits(Two(n));
  }

  lemma FourRoundTrip(n: nat)
    requires n < 10000
    ensures AllDigits(Four(n)) && DecimalValue(Four(n)) == n
  {
    var s := Four(n);
    var a, b, c, d := n / 1000, n / 100 % 10, n / 10 % 10, n % 10;
    DigitRoundTrip(a);
    DigitRoundTrip(b);
    DigitRoundTrip(c);
    DigitRoundTrip(d);
    assert s == [DigitChar(a), DigitChar(b), DigitChar(c), DigitChar(d)];
    FourDigits(s);
    assert DecimalValue(s) == 1000 * a + 100 * b + 10 * c + d;
    DecimalDigits(n);
  }

  lemma DigitRoundTrip(x: nat)
    requires x < 10
    ensures IsDigit(DigitChar(x)) && DigitValue(DigitChar(x)) == x
  {
  }

  /** A number below 10000 is the sum of its four decimal digits times their place values. */
  lemma DecimalDigits(n: nat)
    requires n < 10000
    ensures 1000 * (n / 1000) + 100 * (n / 100 % 10) + 10 * (n / 10 % 10) + n % 10 == n
  {
    var q1 := n / 10;
    var q2 := q1 / 10;
    var q3 := q2 / 10;
    assert n == 10 * q1 + n % 10;
    assert q1 == 10 * q2 + q1 % 10;
    assert q2 == 10 * q3 + q2 % 10;
    assert q2 == n / 100;
    assert q3 == n / 1000;
  }

  lemma TwoOfValue(s: string)
    requires |s| == 2 && AllDigits(s)
    ensures DecimalValue(s) < 100 && Two(DecimalValue(s)) == s
  {
    TwoDigits(s);
    var a, b := DigitValue(s[0]), DigitValue(s[1]);
    assert (10 * a + b) / 10 == a && (10 * a + b) % 10 == b;
    assert DigitChar(a) == s[0] && DigitChar(b) == s[1];
  }

  lemma DigitsOf(a: nat, b: nat, c: nat, d: nat)
    requires a < 10 && b < 10 && c < 10 && d < 10
    ensures (1000 * a + 100 * b + 10 * c + d) / 1000 == a
    ensures (1000 * a + 100 * b + 10 * c + d) / 100 % 10 == b
    ensures (1000 * a + 100 * b + 10 * c + d) / 10 % 10 == c
    ensures (1000 * a + 100 * b + 10 * c + d) % 10 == d
  {
    var n := 1000 * a + 100 * b + 10 * c + d;
    assert n == 10 * (100 * a + 10 * b + c) + d;
    assert n / 10 == 100 * a + 10 * b + c;
    assert n / 10 == 10 * (10 * a + b) + c;
    assert n == 100 * (10 * a + b) + (10 * c + d);
    assert n / 100 == 10 * a + b;
    assert n == 1000 * a + (100 * b + 10 * c + d);
  }

  lemma FourOfValue(s: string)
    requires |s| == 4 && AllDigits(s)
    ensures DecimalValue(s) < 10000 && Four(DecimalValue(s)) == s
  {
    FourDigits(s);
    DigitsOf(DigitValue(s[0]), DigitValue(s[1]), DigitValue(s[2]), DigitValue(s[3]));
  }

  /**
   * time.Parse("2006-01-02", s): four year digits, a dash, two month digits,
   * a dash, two day digits and nothing else, naming a real calendar day.
   */
  function ParseDate(s: string): (r: Option<Date>)
    ensures r.Some? ==> ValidDate(r.value) && r.value.year < 10000
  {
    if |s| == 10 && s[4] == '-' && s[7] == '-'
       && AllDigits(s[..4]) && AllDigits(s[5..7]) && AllDigits(s[8..])
    then
      FourOfValue(s[..4]);
      var d := Date(DecimalValue(s[..4]), DecimalValue(s[5..7]), DecimalValue(s[8..]));
      if ValidDate(d) then Some(d) else None
    else None
  }

  /** Every four-digit-year date prints in a form that parses back to it. */
  lemma ParseFormatDate(d: Date)
    requires ValidDate(d) && d.year < 10000
    ensures ParseDate(FormatDate(d)) == Some(d)
  {
    var s := FormatDate(d);
    assert s[..4] == Four(d.year) && s[5..7] == Two(d.month) && s[8..] == Two(d.day);
    FourRoundTrip(d.year);
    TwoRoundTrip(d.month);
    TwoRoundTrip(d.day);
  }

  /** A string that parses as a date is exactly how that date prints. */
  lemma FormatParseDate(s: string)
    requires ParseDate(s).Some?
    ensures FormatDate(ParseDate(s).value) == s
  {
    FourOfValue(s[..4]);
    TwoOfValue(s[5..7]);
    TwoOfValue(s[8..]);
    assert s == s[..4] + "-" + s[5..7] + "-" + s[8..];
  }

  /** The value of the digits of `s[i..j]`, or -1 when one of them is not a digit. */
  function NumberAt(s: string, i: nat, j: nat): (r: int)
    requires i <= j <= |s|
    ensures r >= -1
    ensures r >= 0 <==> AllDigits(s[i..j])
  {
    if AllDigits(s[i..j]) then DecimalValue(s[i..j]) else -1
  }

  /** The time of day, in seconds, of an hour, minute and second. */
  function Clock(hour: nat, minute: nat, second: nat): nat {
    hour * 3600 + minute * 60 + second
  }

  /**
   * time.Parse(time.RFC3339, s), in the strict form of the layout: a local
   * date and time, an optional `.` and fraction digits (dropped: instants are
   * whole seconds), then a zone. Instants before 0000-01-01T00:00:00Z are not
   * representable and give None.
   */
  function ParseRFC3339(s: string): (r: Option<nat>)
    ensures r.Some? ==> |s| >= 20 && ParseDate(s[..10]).Some? && s[10] == 'T'
  {
    if |s| < 19 then None
    else
      assert s[..19][..10] == s[..10];
      var local := ParseLocal(s[..19]);
      var offset := ParseZone(s[19 + FractionLength(s[19..])..]);
      if local.None? || offset.None? || local.value < offset.value then None
      else Some(local.value - offset.value)
  }

  /**
   * "2006-01-02T15:04:05": a date, `T`, a two-digit hour (0-23), minute and
   * second (0-59); the result counts seconds as if the clock were UTC.
   */
  function ParseLocal(s: string): (r: Option<nat>)
    requires |s| == 19
    ensures r.Some? ==> ParseDate(s[..10]).Some? && s[10] == 'T'
  {
    var date := ParseDate(s[..10]);
    var hour, minute, second := NumberAt(s, 11, 13), NumberAt(s, 14, 16), NumberAt(s, 17, 19);
    if date.None? || s[10] != 'T' || s[13] != ':' || s[16] != ':'
       || !(0 <= hour <= 23) || !(0 <= minute <= 59) || !(0 <= second <= 59)
    then None
    else Some(StartOfDay(date.value) + Clock(hour, minute, second))
  }

  /**
   * "Z07:00": `Z` for UTC, or a sign, a two-digit hour (0-23), `:` and a
   * two-digit minute (0-59). The result is the offset east of UTC in seconds.
   */
  function ParseZone(z: string): (r: Option<int>)
    ensures r.Some? ==> z == "Z" || |z| == 6
    ensures r.Some? ==> -SecondsPerDay < r.value < SecondsPerDay
  {
    if z == "Z" then Some(0)
    else if |z| != 6 || !(z[0] == '+' || z[0] == '-') || z[3] != ':' then None
    else
      var oh, om := NumberAt(z, 1, 3), NumberAt(z, 4, 6);
      if !(0 <= oh <= 23) || !(0 <= om <= 59) then None
      else
        var offset: int := Clock(oh, om, 0);
        if z[0] == '-' then Some(-offset) else Some(offset)
  }

  /** Length of a leading `.` followed by at least one digit and all the digits after it, else 0. */
  function FractionLength(s: string): (n: nat)
    ensures n <= |s|
    ensures n > 0 ==> n >= 2 && s[0] == '.' && AllDigits(s[1..n])
    ensures n > 0 ==> n == |s| || !IsDigit(s[n])
  {
    if |s| >= 2 && s[0] == '.' && IsDigit(s[1]) then 1 + DigitRun(s, 1) else 0
  }

  /** Length of the run of digits starting at `s[i]`. */
  function DigitRun(s: string, i: nat): (n: nat)
    requires i <= |s|
    ensures i + n <= |s| && AllDigits(s[i..i + n])
    ensures i + n == |s| || !IsDigit(s[i + n])
    decreases |s| - i
  {
    if i < |s| && IsDigit(s[i]) then
      var n := 1 + DigitRun(s, i + 1);
      assert s[i..i + n] == [s[i]] + s[i + 1..i + n];
      n
    else 0
  }

  /** The RFC 3339 text Go writes for an instant in UTC (whole seconds). */
  function FormatRFC3339(ts: nat): string {
    UtcText(DateOf(ts), ts % SecondsPerDay)
  }

  /** "2006-01-02T15:04:05Z" for second `secs` of day `d`. */
  function UtcText(d: Date, secs: nat): string
    requires ValidDate(d) && secs < SecondsPerDay
  {
    LocalText(d, secs / 3600, secs / 60 % 60, secs % 60) + "Z"
  }

  /** "2006-01-02T15:04:05": a date, `T`, and a zero-padded hour, minute and second. */
  function LocalText(d: Date, h: nat, m: nat, sec: nat): string
    requires ValidDate(d) && h < 100 && m < 100 && sec < 100
  {
    FormatDate(d) + "T" + Two(h) + ":" + Two(m) + ":" + Two(sec)
  }

  /** A second of the day splits into hour, minute and second. */
  lemma ClockSplit(secs: nat)
    requires secs < SecondsPerDay
    ensures secs / 3600 < 24 && secs / 60 % 60 < 60 && secs % 60 < 60
    ensures Clock(secs / 3600, secs / 60 % 60, secs % 60) == secs
  {
    var m := secs / 60;
    assert secs == 60 * m + secs % 60;
    assert m == 60 * (m / 60) + m % 60;
    assert m / 60 == secs / 3600;
  }

  /**
   * The text of a four-digit-year date and a time of day parses back to `t`,
   * the instant they name.
   */
  lemma ParseLocalText(d: Date, h: nat, m: nat, sec: nat, t: nat)
    requires ValidDate(d) && d.year < 10000 && h < 24 && m < 60 && sec < 60
    requires StartOfDay(d) + Clock(h, m, sec) == t
    ensures |LocalText(d, h, m, sec)| == 19
    ensures ParseLocal(LocalText(d, h, m, sec)) == Some(t)
  {
    var s := LocalText(d, h, m, sec);
    LocalTextShape(d, h, m, sec);
    ParseFormatDate(d);
    NumberAtTwo(s, 11, h);
    NumberAtTwo(s, 14, m);
    NumberAtTwo(s, 17, sec);
    ParseLocalFields(s, d, h, m, sec, t);
  }

  /** Where the date, the separators and the clock fields sit in the local text. */
  lemma LocalTextShape(d: Date, h: nat, m: nat, sec: nat)
    requires ValidDate(d) && d.year < 10000 && h < 24 && m < 60 && sec < 60
    ensures var s := LocalText(d, h, m, sec);
      |s| == 19 && s[..10] == FormatDate(d) && s[10] == 'T' && s[13] == ':' && s[16] == ':'
      && s[11..13] == Two(h) && s[14..16] == Two(m) && s[17..19] == Two(sec)
  {
  }

  /** Two digits written for `n` read back as `n`. */
  lemma NumberAtTwo(s: string, i: nat, n: nat)
    requires i + 2 <= |s| && n < 100 && s[i..i + 2] == Two(n)
    ensures NumberAt(s, i, i + 2) == n
  {
    TwoRoundTrip(n);
  }

  /** ParseLocal of a text whose fields each read back. */
  lemma ParseLocalFields(s: string, d: Date, h: nat, m: nat, sec: nat, t: nat)
    requires |s| == 19 && ParseDate(s[..10]) == Some(d) && s[10] == 'T' && s[13] == ':' && s[16] == ':'
    requires NumberAt(s, 11, 13) == h < 24 && NumberAt(s, 14, 16) == m < 60 && NumberAt(s, 17, 19) == sec < 60
    requires StartOfDay(d) + Clock(h, m, sec) == t
    ensures ParseLocal(s) == Some(t)
  {
  }

  /** The UTC text is the local text followed by `Z`. */
  lemma UtcTextShape(d: Date, secs: nat)
    requires ValidDate(d) && d.year < 10000 && secs < SecondsPerDay
    ensures var s := UtcText(d, secs);
      |s| == 20 && s[19] == 'Z' && s[..19] == LocalText(d, secs / 3600, secs / 60 % 60, secs % 60)
  {
    ClockSplit(secs);
    LocalTextShape(d, secs / 3600, secs / 60 % 60, secs % 60);
  }

  /** A local time followed by `Z` is that instant in UTC. */
  lemma ParseUtc(s: string, t: nat)
    requires |s| == 20 && s[19] == 'Z' && ParseLocal(s[..19]) == Some(t)
    ensures ParseRFC3339(s) == Some(t)
  {
    assert s[19..] == "Z";
    assert FractionLength(s[19..]) == 0;
  }

  /** An instant is the start of its day plus its second of the day. */
  lemma DayAndClock(ts: nat)
    ensures StartOfDay(DateOf(ts)) + ts % SecondsPerDay == ts
  {
    assert StartOfDay(DateOf(ts)) == ts / SecondsPerDay * SecondsPerDay;
  }

  /** Every instant of a four-digit year reads back from its RFC 3339 text. */
  lemma ParseFormatRFC3339(ts: nat)
    requires DateOf(ts).year < 10000
    ensures ParseRFC3339(FormatRFC3339(ts)) == Some(ts)
  {
    var d, secs := DateOf(ts), ts % SecondsPerDay;
    var h, m, sec := secs / 3600, secs / 60 % 60, secs % 60;
    InstantParts(ts);
    UtcTextShape(d, secs);
    ParseLocalText(d, h, m, sec, ts);
    ParseUtc(FormatRFC3339(ts), ts);
  }

  /** An instant is the start of its day plus the hour, minute and second of its time of day. */
  lemma InstantParts(ts: nat)
    ensures var secs := ts % SecondsPerDay;
      secs / 3600 < 24 && secs / 60 % 60 < 60 && secs % 60 < 60
      && StartOfDay(DateOf(ts)) + Clock(secs / 3600, secs / 60 % 60, secs % 60) == ts
  {
    DayAndClock(ts);
    ClockSplit(ts % SecondsPerDay);
  }
}
