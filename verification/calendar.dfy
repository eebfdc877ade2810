/**
 Proleptic Gregorian dates as Python's `datetime.date` holds them (years 1 to
 9999), day numbers relative to the Unix epoch, the Sunrise-Sunset API's
 timestamp format `YYYY-MM-DDTHH:MM:SS+HH:MM`, and the rendering of a Unix
 timestamp as a UTC wall-clock reading `HH:MM:SS+0000` and of a date as
 `YYYY-MM-DD`.
 */
module Calendar {
  import opened Python

  datatype Date = Date(year: int, month: int, day: int)

  /** A `datetime.date`: always a valid calendar date. */
  type PyDate = d: Date | ValidDate(d) witness Date(1970, 1, 1)

  predicate IsLeapYear(y: int) {
    y % 4 == 0 && (y % 100 != 0 || y % 400 == 0)
  }

  function DaysInYear(y: int): int {
    if IsLeapYear(y) then 366 else 365
  }

  function DaysInMonth(y: int, m: int): int
    requires 1 <= m <= 12
  {
    if m == 2 then (if IsLeapYear(y) then 29 else 28)
    else if m == 4 || m == 6 || m == 9 || m == 11 then 30
    else 31
  }

  /** The dates `datetime.date` can represent. */
  predicate ValidDate(d: Date) {
    1 <= d.year <= 9999 && 1 <= d.month <= 12 && 1 <= d.day <= DaysInMonth(d.year, d.month)
  }

  /** Days in the years before `y`, counting from 0001-01-01. */
  function DaysBeforeYear(y: int): int {
    var x := y - 1;
    365 * x + x / 4 - x / 100 + x / 400
  }

  /** Days in the months of year `y` before month `m`. */
  function DaysBeforeMonth(y: int, m: int): int
    requires 1 <= m <= 12
  {
    var common :=
      if m == 1 then 0 else if m == 2 then 31 else if m == 3 then 59
      else if m == 4 then 90 else if m == 5 then 120 else if m == 6 then 151
      else if m == 7 then 181 else if m == 8 then 212 else if m == 9 then 243
      else if m == 10 then 273 else if m == 11 then 304 else 334;
    common + (if m > 2 && IsLeapYear(y) then 1 else 0)
  }

  /** The day number of 1970-01-01 when 0001-01-01 is day 1 (`date.toordinal`). */
  const EpochOrdinal: int := 719163

  /** Days from 1970-01-01 to `d`; negative before the epoch. */
  function EpochDay(d: Date): int
    requires 1 <= d.month <= 12
  {
    DaysBeforeYear(d.year) + DaysBeforeMonth(d.year, d.month) + d.day - EpochOrdinal
  }

  /** The calendar day after `d`. */
  function NextDay(d: Date): Date
    requires ValidDate(d)
  {
    if d.day < DaysInMonth(d.year, d.month) then Date(d.year, d.month, d.day + 1)
    else if d.month < 12 then Date(d.year, d.month + 1, 1)
    else Date(d.year + 1, 1, 1)
  }

  const SecondsPerDay: int := 86400

  /** Day numbers of 0001-01-01 and 9999-12-31. */
  const MinDay: int := 1 - EpochOrdinal
  const MaxDay: int := 2932896

  /** The Unix timestamps that `datetime.fromtimestamp` can turn into a datetime. */
  const MinTimestamp: int := MinDay * SecondsPerDay
  const MaxTimestamp: int := MaxDay * SecondsPerDay + SecondsPerDay - 1

  // ---------------------------------------------------------------------------
  // Facts about the day count

  lemma EpochIsDayZero()
    ensures EpochDay(Date(1970, 1, 1)) == 0
  {
  }

  lemma DayRangeEnds()
    ensures EpochDay(Date(1, 1, 1)) == MinDay
    ensures EpochDay(Date(9999, 12, 31)) == MaxDay
  {
  }

  lemma DivStep(x: int, k: int)
    requires k > 0
    ensures (x + 1) / k - x / k == if (x + 1) % k == 0 then 1 else 0
  {
    var q, r := x / k, x % k;
    assert x == q * k + r && 0 <= r < k;
    if r == k - 1 {
      assert x + 1 == (q + 1) * k;
      LemmaDivUnique(x + 1, k, q + 1, 0);
    } else {
      assert x + 1 == q * k + (r + 1);
      LemmaDivUnique(x + 1, k, q, r + 1);
    }
  }

  lemma LemmaDivUnique(n: int, k: int, q: int, r: int)
    requires k > 0 && 0 <= r < k && n == q * k + r
    ensures n / k == q && n % k == r
  {
    var q', r' := n / k, n % k;
    assert n == q' * k + r' && 0 <= r' < k;
    assert (q' - q) * k == r - r';
    if q' > q {
      MulAtLeast(q' - q, k);
      assert false;
    } else if q' < q {
      MulAtLeast(q - q', k);
      assert false;
    }
  }

  lemma MulAtLeast(a: int, k: int)
    requires a >= 1 && k > 0
    ensures a * k >= k
  {
  }

  /** Consecutive years are a year's length apart. */
  lemma DaysBeforeYearStep(y: int)
    ensures DaysBeforeYear(y + 1) == DaysBeforeYear(y) + DaysInYear(y)
  {
    var x := y - 1;
    DivStep(x, 4);
    DivStep(x, 100);
    DivStep(x, 400);
    assert (y % 100 == 0) ==> (y % 4 == 0) by {
      if y % 100 == 0 {
        LemmaDivUnique(y, 4, (y / 100) * 25, 0);
      }
    }
    assert (y % 400 == 0) ==> (y % 100 == 0) by {
      if y % 400 == 0 {
        LemmaDivUnique(y, 100, (y / 400) * 4, 0);
      }
    }
  }

  /** The day count advances by exactly one from each date to the next, so that
      together with EpochIsDayZero it numbers the calendar consecutively. */
  lemma {:induction false} NextDayIsOneMore(d: Date)
    requires ValidDate(d)
    ensures d.year < 9999 || d.month < 12 || d.day < 31 ==> ValidDate(NextDay(d))
    ensures EpochDay(NextDay(d)) == EpochDay(d) + 1
  {
    if d.day < DaysInMonth(d.year, d.month) {
    } else if d.month < 12 {
    } else {
      DaysBeforeYearStep(d.year);
    }
  }

  /** The last day of a year is the year's length past the days before it. */
  lemma LastDayOfMonthBound(y: int, m: int)
    requires 1 <= m <= 12
    ensures DaysBeforeMonth(y, m) + DaysInMonth(y, m) <= DaysInYear(y)
  {
  }

  lemma {:induction false} DaysBeforeYearMonotone(y: int, z: int)
    requires y <= z
    ensures DaysBeforeYear(y) <= DaysBeforeYear(z)
    decreases z - y
  {
    if y < z {
      DaysBeforeYearStep(y);
      DaysBeforeYearMonotone(y + 1, z);
    }
  }

  /** Every representable date lies between 0001-01-01 and 9999-12-31. */
  lemma EpochDayInRange(d: Date)
    requires ValidDate(d)
    ensures MinDay <= EpochDay(d) <= MaxDay
  {
    DaysBeforeYearMonotone(1, d.year);
    DaysBeforeYearMonotone(d.year + 1, 10000);
    DaysBeforeYearStep(d.year);
    LastDayOfMonthBound(d.year, d.month);
    DayRangeEnds();
  }

  // ---------------------------------------------------------------------------
  // Decimal digits

  predicate IsDigit(c: char) {
    '0' <= c <= '9'
  }

  predicate AllDigits(s: string) {
    forall i | 0 <= i < |s| :: IsDigit(s[i])
  }

  function Digit(n: int): (c: char)
    requires 0 <= n < 10
    ensures IsDigit(c)
  {
    ('0' as int + n) as char
  }

  function DigitValue(c: char): int
    requires IsDigit(c)
  {
    c as int - '0' as int
  }

  /** The number a string of decimal digits denotes. */
  function DigitsValue(s: string): (n: nat)
    requires AllDigits(s)
  {
    if |s| == 0 then 0 else DigitsValue(s[..|s| - 1]) * 10 + DigitValue(s[|s| - 1])
  }

  /** `"%02d" % n`. */
  function Pad2(n: int): (r: string)
    requires 0 <= n < 100
    ensures |r| == 2 && AllDigits(r) && DigitsValue(r) == n
  {
    var r := [Digit(n / 10), Digit(n % 10)];
    assert r[..1] == [Digit(n / 10)] && r[..1][..0] == [];
    assert DigitsValue(r[..1]) == n / 10;
    r
  }

  /** `str(n)`: the shortest decimal rendering of `n`. */
  function Decimal(n: nat): (r: string)
    ensures |r| >= 1 && AllDigits(r) && DigitsValue(r) == n
    ensures r[0] != '0' || n == 0
    ensures n < 10 ==> |r| == 1
    ensures 10 <= n < 100 ==> |r| == 2
    ensures 100 <= n < 1000 ==> |r| == 3
    ensures 1000 <= n < 10000 ==> |r| == 4
  {
    if n < 10 then [Digit(n)]
    else
      var r := Decimal(n / 10) + [Digit(n % 10)];
      assert r[..|r| - 1] == Decimal(n / 10);
      r
  }

  lemma DigitRoundTrip(c: char)
    requires IsDigit(c)
    ensures Digit(DigitValue(c)) == c
  {
  }

  /** Two digits read and written back give the same two characters. */
  lemma Pad2OfDigits(s: string)
    requires |s| == 2 && AllDigits(s)
    ensures DigitsValue(s) < 100 && Pad2(DigitsValue(s)) == s
  {
    assert s[..1][..0] == [];
    assert DigitsValue(s[..1]) == DigitValue(s[0]);
    assert DigitsValue(s) == DigitValue(s[0]) * 10 + DigitValue(s[1]);
    DigitRoundTrip(s[0]);
    DigitRoundTrip(s[1]);
  }

  lemma {:induction false} LeadingDigitPositive(s: string)
    requires |s| >= 1 && AllDigits(s) && s[0] != '0'
    ensures DigitsValue(s) >= 1
    decreases |s|
  {
    if |s| > 1 {
      LeadingDigitPositive(s[..|s| - 1]);
    }
  }

  lemma TwoDigitsValue(s: string)
    requires |s| == 2 && AllDigits(s)
    ensures DigitsValue(s) == DigitValue(s[0]) * 10 + DigitValue(s[1])
  {
    assert s[..1][..0] == [];
    assert DigitsValue(s[..1]) == DigitValue(s[0]);
  }

  lemma FourDigitsValue(s: string)
    requires |s| == 4 && AllDigits(s)
    ensures DigitsValue(s) == ((DigitValue(s[0]) * 10 + DigitValue(s[1])) * 10 + DigitValue(s[2])) * 10 + DigitValue(s[3])
  {
    assert s[..3][..2][..1][..0] == [];
    assert DigitsValue(s[..3][..2][..1]) == DigitValue(s[0]);
    assert DigitsValue(s[..3][..2]) == DigitValue(s[0]) * 10 + DigitValue(s[1]);
    assert DigitsValue(s[..3]) == (DigitValue(s[0]) * 10 + DigitValue(s[1])) * 10 + DigitValue(s[2]);
  }

  /** Digits without a leading zero read and written back give the same string. */
  lemma {:induction false} DecimalOfDigits(s: string)
    requires |s| >= 1 && AllDigits(s) && s[0] != '0'
    ensures Decimal(DigitsValue(s)) == s
    decreases |s|
  {
    var n := DigitsValue(s);
    if |s| == 1 {
      assert s[..0] == [];
      DigitRoundTrip(s[0]);
    } else {
      var init := s[..|s| - 1];
      LeadingDigitPositive(init);
      DecimalOfDigits(init);
      DigitRoundTrip(s[|s| - 1]);
      assert n / 10 == DigitsValue(init) && n % 10 == DigitValue(s[|s| - 1]);
      assert s == init + [s[|s| - 1]];
    }
  }

  /** Four digits denoting at least 1000 have no leading zero. */
  lemma FourDigitYear(s: string)
    requires |s| == 4 && AllDigits(s) && DigitsValue(s) >= 1000
    ensures s[0] != '0'
  {
    FourDigitsValue(s);
  }

  // ---------------------------------------------------------------------------
  // Rendering

  /** `date.strftime("%Y-%m-%d")`; glibc renders years below 1000 unpadded. */
  function FormatDate(d: PyDate): (r: string)
    ensures 1000 <= d.year ==> |r| == 10 && r[4] == '-' && r[7] == '-'
    ensures 1000 <= d.year ==> AllDigits(r[..4]) && DigitsValue(r[..4]) == d.year
    ensures 1000 <= d.year ==> AllDigits(r[5..7]) && DigitsValue(r[5..7]) == d.month
    ensures 1000 <= d.year ==> AllDigits(r[8..]) && DigitsValue(r[8..]) == d.day
  {
    var y := Decimal(d.year);
    var r := y + "-" + Pad2(d.month) + "-" + Pad2(d.day);
    assert 1000 <= d.year ==> r[..4] == y && r[5..7] == Pad2(d.month) && r[8..] == Pad2(d.day);
    r
  }

  /** The seconds since midnight that a clock reading `HH:MM:SS...` shows. */
  function ClockSeconds(s: string): int
    requires |s| >= 8 && AllDigits(s[0..2]) && AllDigits(s[3..5]) && AllDigits(s[6..8])
  {
    DigitsValue(s[0..2]) * 3600 + DigitsValue(s[3..5]) * 60 + DigitsValue(s[6..8])
  }

  /** `text` is a `HH:MM:SS+0000` reading of a 24-hour clock showing the UTC
      time of day of the Unix timestamp `t`. */
  predicate IsUtcClockOf(text: string, t: int) {
    && |text| == 13 && text[2] == ':' && text[5] == ':' && text[8..] == "+0000"
    && AllDigits(text[0..2]) && AllDigits(text[3..5]) && AllDigits(text[6..8])
    && DigitsValue(text[0..2]) < 24 && DigitsValue(text[3..5]) < 60 && DigitsValue(text[6..8]) < 60
    && ClockSeconds(text) == t % SecondsPerDay
  }

  /** A UTC clock reading of a timestamp is unique: two readings of the same
      time of day are the same string. */
  lemma ClockReadingUnique(a: string, b: string, t: int)
    requires IsUtcClockOf(a, t) && IsUtcClockOf(b, t)
    ensures a == b
  {
    var ha, ma, sa := DigitsValue(a[0..2]), DigitsValue(a[3..5]), DigitsValue(a[6..8]);
    var hb, mb, sb := DigitsValue(b[0..2]), DigitsValue(b[3..5]), DigitsValue(b[6..8]);
    LemmaDivUnique(ha * 60 + ma, 60, ha, ma);
    LemmaDivUnique(hb * 60 + mb, 60, hb, mb);
    LemmaDivUnique(ClockSeconds(a), 60, ha * 60 + ma, sa);
    LemmaDivUnique(ClockSeconds(b), 60, hb * 60 + mb, sb);
    Pad2OfDigits(a[0..2]);
    Pad2OfDigits(b[0..2]);
    Pad2OfDigits(a[3..5]);
    Pad2OfDigits(b[3..5]);
    Pad2OfDigits(a[6..8]);
    Pad2OfDigits(b[6..8]);
    assert a == a[0..2] + ":" + a[3..5] + ":" + a[6..8] + a[8..];
    assert b == b[0..2] + ":" + b[3..5] + ":" + b[6..8] + b[8..];
  }

  lemma ClockSplit(tod: int)
    requires 0 <= tod < SecondsPerDay
    ensures tod / 3600 < 24 && tod / 60 % 60 < 60
    ensures tod / 3600 * 3600 + tod / 60 % 60 * 60 + tod % 60 == tod
  {
    var h, rest := tod / 3600, tod % 3600;
    assert tod == h * 3600 + rest;
    var m, s := rest / 60, rest % 60;
    assert rest == m * 60 + s;
    assert tod == (h * 60 + m) * 60 + s;
    LemmaDivUnique(tod, 60, h * 60 + m, s);
    LemmaDivUnique(h * 60 + m, 60, h, m);
  }

  /** `datetime.fromtimestamp(t, tz.UTC).strftime("%H:%M:%S%z")`: the UTC time of
      day of `t`, or an error when `t` falls outside years 1 to 9999. */
  function FormatUtcTime(t: int): (r: Result<string>)
    ensures r.Ok? <==> MinTimestamp <= t <= MaxTimestamp
    ensures r.Raised? ==> r.exc == TimestampOutOfRange
    ensures r.Ok? ==> IsUtcClockOf(r.value, t)
  {
    if MinTimestamp <= t <= MaxTimestamp then
      var tod := t % SecondsPerDay;
      ClockSplit(tod);
      var text := Pad2(tod / 3600) + ":" + Pad2(tod / 60 % 60) + ":" + Pad2(tod % 60) + "+0000";
      assert text[0..2] == Pad2(tod / 3600) && text[3..5] == Pad2(tod / 60 % 60) && text[6..8] == Pad2(tod % 60);
      Ok(text)
    else
      Raised(TimestampOutOfRange)
  }

  // ---------------------------------------------------------------------------
  // Parsing the API's timestamps

  /** A parsed timestamp: the Unix seconds of the instant and the calendar date
      written in the string, which is the date in the string's own UTC offset. */
  datatype Instant = Instant(seconds: int, date: PyDate)

  /** The punctuation and digit positions of `YYYY-MM-DDTHH:MM:SS+HH:MM`. */
  predicate ApiTimestampShape(s: string) {
    && |s| == 25
    && s[4] == '-' && s[7] == '-' && s[10] == 'T' && s[13] == ':' && s[16] == ':'
    && (s[19] == '+' || s[19] == '-') && s[22] == ':'
    && AllDigits(s[0..4]) && AllDigits(s[5..7]) && AllDigits(s[8..10])
    && AllDigits(s[11..13]) && AllDigits(s[14..16]) && AllDigits(s[17..19])
    && AllDigits(s[20..22]) && AllDigits(s[23..25])
  }

  /** The API's timestamp format, as `dateutil.parser.parse(s).timestamp()` and
      `.date()` read it; anything else is not a timestamp of this format. */
  function ParseApiTimestamp(s: string): (r: Option<Instant>)
    ensures r.Some? ==> ValidDate(r.value.date)
    ensures r.Some? ==> ApiTimestampShape(s)
  {
    if !ApiTimestampShape(s) then None
    else
      var d := Date(DigitsValue(s[0..4]), DigitsValue(s[5..7]), DigitsValue(s[8..10]));
      var h, mi, se := DigitsValue(s[11..13]), DigitsValue(s[14..16]), DigitsValue(s[17..19]);
      var oh, om := DigitsValue(s[20..22]), DigitsValue(s[23..25]);
      if ValidDate(d) && h < 24 && mi < 60 && se < 60 && oh < 24 && om < 60 then
        var offset := (if s[19] == '+' then 1 else -1) * (oh * 3600 + om * 60);
        Some(Instant(EpochDay(d) * SecondsPerDay + h * 3600 + mi * 60 + se - offset, d))
      else None
  }

  /** The text the API sends for a UTC instant on date `d` at `h:m:sec`. */
  function ApiUtcText(d: PyDate, h: int, m: int, sec: int): string
    requires d.year >= 1000 && 0 <= h < 24 && 0 <= m < 60 && 0 <= sec < 60
  {
    FormatDate(d) + "T" + Pad2(h) + ":" + Pad2(m) + ":" + Pad2(sec) + "+00:00"
  }

  /** Parsing the API's text for a UTC instant gives back the date and the
      instant's Unix seconds. */
  lemma ParseApiUtcText(d: PyDate, h: int, m: int, sec: int)
    requires d.year >= 1000 && 0 <= h < 24 && 0 <= m < 60 && 0 <= sec < 60
    ensures ParseApiTimestamp(ApiUtcText(d, h, m, sec))
            == Some(Instant(EpochDay(d) * SecondsPerDay + h * 3600 + m * 60 + sec, d))
  {
    var s := ApiUtcText(d, h, m, sec);
    var date := FormatDate(d);
    assert s[0..4] == date[..4] && s[5..7] == date[5..7] && s[8..10] == date[8..];
    assert s[11..13] == Pad2(h) && s[14..16] == Pad2(m) && s[17..19] == Pad2(sec);
    assert s[20..22] == "00" && s[23..25] == "00";
    TwoDigitsValue("00");
    assert ApiTimestampShape(s);
  }

  /** For a `+00:00` timestamp of the API, the parsed date is the UTC calendar date
      of the instant, and rendering the instant gives back the clock reading the
      API sent, with the offset written `+0000`. */
  lemma UtcTimestampRoundTrip(s: string)
    requires ParseApiTimestamp(s).Some? && s[19..] == "+00:00"
    ensures MinTimestamp <= ParseApiTimestamp(s).value.seconds <= MaxTimestamp
    ensures ParseApiTimestamp(s).value.seconds / SecondsPerDay == EpochDay(ParseApiTimestamp(s).value.date)
    ensures FormatUtcTime(ParseApiTimestamp(s).value.seconds) == Ok(s[11..19] + "+0000")
    ensures ParseApiTimestamp(s).value.date.year >= 1000 ==> FormatDate(ParseApiTimestamp(s).value.date) == s[..10]
  {
    var inst := ParseApiTimestamp(s).value;
    var d := inst.date;
    var h, mi, se := DigitsValue(s[11..13]), DigitsValue(s[14..16]), DigitsValue(s[17..19]);
    assert s[20..22] == "00" && s[23..25] == "00";
    assert DigitsValue("00") == 0 by {
      assert "00"[..1] == "0" && "0"[..0] == "";
    }
    var tod := h * 3600 + mi * 60 + se;
    assert inst.seconds == EpochDay(d) * SecondsPerDay + tod;
    EpochDayInRange(d);
    LemmaDivUnique(inst.seconds, SecondsPerDay, EpochDay(d), tod);
    LemmaDivUnique(tod, 60, h * 60 + mi, se);
    LemmaDivUnique(h * 60 + mi, 60, h, mi);
    LemmaDivUnique(tod, 3600, h, mi * 60 + se);
    Pad2OfDigits(s[11..13]);
    Pad2OfDigits(s[14..16]);
    Pad2OfDigits(s[17..19]);
    assert s[11..19] == s[11..13] + ":" + s[14..16] + ":" + s[17..19];
    if d.year >= 1000 {
      FourDigitYear(s[0..4]);
      DecimalOfDigits(s[0..4]);
      Pad2OfDigits(s[5..7]);
      Pad2OfDigits(s[8..10]);
      assert s[..10] == s[0..4] + "-" + s[5..7] + "-" + s[8..10];
    }
  }
}
