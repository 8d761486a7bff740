/** Calendar days as integers: day 0 is 1970-01-01 (UTC), the day the Date time value 0
    falls on. Conversions follow the proleptic Gregorian calendar that ECMAScript's
    `Date.UTC` and the date libraries use; formats are those the app asks dayjs and
    moment for ('DD/MM' and 'DD/MM/YY'). */
module Calendar {
  import opened JsBuiltins

  /** A calendar date; `month` is 1-based as printed. */
  datatype Civil = Civil(year: int, month: int, day: int)

  predicate ValidCivil(c: Civil) {
    1 <= c.month <= 12 && 1 <= c.day <= 31
  }

  /** Day number of the civil date (year, month 1..12, day); `day` may run past the month.
      Years are counted from 1 March, so that a leap day ends its year. */
  function DaysFromCivil(year: int, month: int, day: int): int
    requires 1 <= month <= 12
  {
    MarchYearStart(if month <= 2 then year - 1 else year) + MonthOffset(month) + day - 1 - 719468
  }

  /** Days from 1 March of year 0 to 1 March of year `y`, by 400-year eras of 146097 days. */
  function MarchYearStart(y: int): int {
    var yoe := y % 400;
    y / 400 * 146097 + yoe * 365 + yoe / 4 - yoe / 100
  }

  /** Days from 1 March to the first of `month` in the same March-based year. */
  function MonthOffset(month: int): int
    requires 1 <= month <= 12
  {
    (153 * ((month + 9) % 12) + 2) / 5
  }

  /** The civil date of a day number (inverse of DaysFromCivil, see CivilRoundTrip). */
  function CivilFromDays(n: int): (c: Civil)
    ensures ValidCivil(c)
  {
    var z := n + 719468;
    var yd := YearOfEra(z % 146097);
    CivilOfEraDay(z / 146097, yd.0, yd.1)
  }

  /** Splits a day of a 400-year era (eras start on 1 March) into the year of the era and
      the day of that March-based year, by centuries, four-year cycles and years. */
  function YearOfEra(doe: int): (r: (int, int))
    requires 0 <= doe < 146097
    ensures 0 <= r.0 < 400 && 0 <= r.1 <= 365
    ensures r.0 * 365 + r.0 / 4 - r.0 / 100 + r.1 == doe
  {
    var centuries := if doe / 36524 < 3 then doe / 36524 else 3;
    var r1 := doe - 36524 * centuries;
    var cycles := r1 / 1461;
    var r2 := r1 % 1461;
    var years := if r2 / 365 < 3 then r2 / 365 else 3;
    var yoe := 100 * centuries + 4 * cycles + years;
    assert cycles <= 24;
    assert yoe / 4 == 25 * centuries + cycles;
    assert yoe / 100 == centuries;
    (yoe, r2 - 365 * years)
  }

  /** The date on day `doy` (0 is 1 March) of year `yoe` of era `era`. */
  function CivilOfEraDay(era: int, yoe: int, doy: int): (c: Civil)
    requires 0 <= yoe < 400 && 0 <= doy <= 365
    ensures ValidCivil(c)
  {
    var mp := (5 * doy + 2) / 153;
    var d := doy - (153 * mp + 2) / 5 + 1;
    var m := if mp < 10 then mp + 3 else mp - 9;
    Civil(yoe + era * 400 + (if m <= 2 then 1 else 0), m, d)
  }

  /** Every day number is the day number of its civil date. */
  lemma CivilRoundTrip(n: int)
    ensures var c := CivilFromDays(n); DaysFromCivil(c.year, c.month, c.day) == n
  {
    var z := n + 719468;
    var yd := YearOfEra(z % 146097);
    EraDayRoundTrip(z / 146097, yd.0, yd.1);
  }

  lemma EraDayRoundTrip(era: int, yoe: int, doy: int)
    requires 0 <= yoe < 400 && 0 <= doy <= 365
    ensures var c := CivilOfEraDay(era, yoe, doy);
      DaysFromCivil(c.year, c.month, c.day) == era * 146097 + (yoe * 365 + yoe / 4 - yoe / 100 + doy) - 719468
  {
    var mp := (5 * doy + 2) / 153;
    assert 0 <= mp <= 11;
    var c := CivilOfEraDay(era, yoe, doy);
    var y := if c.month <= 2 then c.year - 1 else c.year;
    assert y == yoe + era * 400;
    assert y / 400 == era && y % 400 == yoe;
    assert MarchYearStart(y) == era * 146097 + yoe * 365 + yoe / 4 - yoe / 100;
    assert (c.month + 9) % 12 == mp;
    assert MonthOffset(c.month) == (153 * mp + 2) / 5;
  }

  /** Day of the week, 0 for Sunday (1970-01-01, day 0, was a Thursday). */
  function Weekday(n: int): (w: int)
    ensures 0 <= w < 7
  {
    (n + 4) % 7
  }

  /** dayjs `startOf('week')` in its default locale: the Sunday on or before `n`. */
  function StartOfWeek(n: int): (s: int)
    ensures s <= n < s + 7
    ensures Weekday(s) == 0
  {
    n - Weekday(n)
  }

  /** Paging the anchor by whole weeks pages the week start by the same amount. */
  lemma {:induction false} StartOfWeekShift(n: int, k: int)
    ensures StartOfWeek(n + 7 * k) == StartOfWeek(n) + 7 * k
  {
    assert (n + 7 * k + 4) % 7 == (n + 4) % 7;
  }

  /** Every day of one Sunday-to-Saturday week has the same week start. */
  lemma SameWeek(s: int, i: int)
    requires Weekday(s) == 0 && 0 <= i < 7
    ensures StartOfWeek(s + i) == s
  {
  }

  /** Two decimal digits: dayjs 'DD' and 'MM', `String(n).padStart(2, '0')` for the days
      and months, which are below 100 (see Pad2IsPadStart). */
  function Pad2(n: int): (s: string)
    requires 0 <= n < 100
    ensures |s| == 2 && IsDigit(s[0]) && IsDigit(s[1])
    ensures 10 * DigitValue(s[0]) + DigitValue(s[1]) == n
  {
    [DigitChar(n / 10), DigitChar(n % 10)]
  }

  /** `String(n).padStart(2, '0')`. */
  function PadStart2(n: nat): string {
    var digits := DecimalString(n);
    if |digits| < 2 then "0" + digits else digits
  }

  lemma Pad2IsPadStart(n: nat)
    requires n < 100
    ensures Pad2(n) == PadStart2(n)
  {
    if n >= 10 {
      assert DecimalString(n / 10) == [DigitChar(n / 10)];
    }
  }

  /** dayjs 'YY': the last two characters of the year padded to four characters with '0'
      (`padStart(String(year), 4, '0').slice(-2)`). */
  function TwoDigitYear(year: int): (s: string)
    ensures 0 <= year ==> s == Pad2(year % 100)
    ensures |s| == 2
  {
    if 0 <= year then Pad2(year % 100)
    else if -year < 10 then ['-', DigitChar(-year)]
    else Pad2(-year % 100)
  }

  /** The 'DD/MM' label of a day (timetable.tsx getWeekDates). */
  function FormatDM(c: Civil): (s: string)
    requires ValidCivil(c)
    ensures |s| == 5 && s[2] == '/' && IsDigit(s[0]) && IsDigit(s[1]) && IsDigit(s[3]) && IsDigit(s[4])
    ensures 10 * DigitValue(s[0]) + DigitValue(s[1]) == c.day && 10 * DigitValue(s[3]) + DigitValue(s[4]) == c.month
  {
    Pad2(c.day) + "/" + Pad2(c.month)
  }

  /** The 'DD/MM/YY' rendering of a day. */
  function FormatDMY(c: Civil): (s: string)
    requires ValidCivil(c)
    ensures |s| == 8 && s[..5] == FormatDM(c) && s[5] == '/'
    ensures 0 <= c.year ==> IsDigit(s[6]) && IsDigit(s[7]) && 10 * DigitValue(s[6]) + DigitValue(s[7]) == c.year % 100
  {
    FormatDM(c) + "/" + TwoDigitYear(c.year)
  }

  /** The 'DD/MM/YY' string of a day number. */
  function DateString(n: int): (s: string)
    ensures |s| == 8 && s[2] == '/' && s[5] == '/'
  {
    FormatDMY(CivilFromDays(n))
  }

  /** Day number of 1 March of year 0: from there on every date has a non-negative year. */
  const EraZeroStart: int := -719468

  lemma YearNonNegative(n: int)
    requires EraZeroStart <= n
    ensures 0 <= CivilFromDays(n).year
  {
  }

  /** A March-based year lasts 365 or 366 days. */
  lemma MarchYearLength(y: int)
    ensures 365 <= MarchYearStart(y + 1) - MarchYearStart(y) <= 366
  {
    var yoe := y % 400;
    if yoe < 399 {
      assert (y + 1) / 400 == y / 400 && (y + 1) % 400 == yoe + 1;
    } else {
      assert (y + 1) / 400 == y / 400 + 1 && (y + 1) % 400 == 0;
    }
  }

  /** `k` March-based years hold at least 365 days each. */
  lemma {:induction false} MarchYearsApart(y: int, k: nat)
    ensures MarchYearStart(y + k) - MarchYearStart(y) >= 365 * k
  {
    if k > 0 {
      MarchYearsApart(y, k - 1);
      MarchYearLength(y + k - 1);
    }
  }

  /** Two days of non-negative years less than a century apart print differently as
      'DD/MM/YY': equal strings would mean the same day and month in years a multiple of 100
      apart. */
  lemma DateStringsDiffer(m: int, n: int)
    requires EraZeroStart <= m < n < m + 36500
    ensures DateString(m) != DateString(n)
  {
    YearNonNegative(m);
    YearNonNegative(n);
    var c1, c2 := CivilFromDays(m), CivilFromDays(n);
    CivilRoundTrip(m);
    CivilRoundTrip(n);
    if FormatDMY(c1) == FormatDMY(c2) {
      SameFormatDMY(c1, c2);
      CenturyApart(c1, c2);
    }
  }

  /** Equal 'DD/MM/YY' strings of dates of non-negative years have equal days, months and
      years modulo 100. */
  lemma SameFormatDMY(c1: Civil, c2: Civil)
    requires ValidCivil(c1) && ValidCivil(c2) && 0 <= c1.year && 0 <= c2.year
    requires FormatDMY(c1) == FormatDMY(c2)
    ensures c1.day == c2.day && c1.month == c2.month && c1.year % 100 == c2.year % 100
  {
    var s := FormatDMY(c1);
    var d1, d2 := Pad2(c1.day), Pad2(c2.day);
    var o1, o2 := Pad2(c1.month), Pad2(c2.month);
    var y1, y2 := Pad2(c1.year % 100), Pad2(c2.year % 100);
    assert s == d1 + "/" + o1 + "/" + y1 == d2 + "/" + o2 + "/" + y2;
    assert d1[0] == s[0] == d2[0] && d1[1] == s[1] == d2[1];
    assert o1[0] == s[3] == o2[0] && o1[1] == s[4] == o2[1];
    assert y1[0] == s[6] == y2[0] && y1[1] == s[7] == y2[1];
  }

  /** The same day and month in two different years congruent modulo 100 are at least a
      century of 365-day years apart. */
  lemma CenturyApart(c1: Civil, c2: Civil)
    requires ValidCivil(c1) && ValidCivil(c2)
    requires c1.day == c2.day && c1.month == c2.month && c1.year % 100 == c2.year % 100
    requires c1.year != c2.year
    ensures var m, n := DaysFromCivil(c1.year, c1.month, c1.day), DaysFromCivil(c2.year, c2.month, c2.day);
      m - n >= 36500 || n - m >= 36500
  {
    var k := c2.year - c1.year;
    var shift := if c1.month <= 2 then 1 else 0;
    if k < 0 {
      assert k <= -100;
      MarchYearsApart(c2.year - shift, -k);
    } else {
      assert k >= 100;
      MarchYearsApart(c1.year - shift, k);
    }
  }
}
