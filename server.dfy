/** The request checks of the Express server: `parseDate` and the validation of
    `POST /api/shifts/range`, the parameter guard of `GET /api/shifts`, the
    `GET /api/users/check` decision and the `is_connected || 0` default of the user
    routes. Database calls are left out; what is modelled is the decision taken and the
    data handed to the database. */
module Server {
  import opened JsBuiltins
  import opened Calendar

  /** The largest magnitude of a Date time value, 8.64e15 ms, in days (ECMA-262 TimeClip). */
  const MAX_DAYS: int := 100_000_000

  /** A Date's time value, counted in whole days: `Date.UTC` of integers is always a
      midnight. `Invalid` is an Invalid Date (time value NaN). */
  datatype TimeValue = Invalid | Time(day: int)

  /** ECMA-262 MakeDay(year, month, date) on integers, in days: the month rolls over into
      the year, the date rolls over into the following months. */
  function MakeDay(year: int, month: int, date: int): (n: int)
    ensures 0 <= month < 12 ==> n == DaysFromCivil(year, month + 1, date)
  {
    DaysFromCivil(year + month / 12, month % 12 + 1, 1) + date - 1
  }

  /** `new Date(Date.UTC(year, month, date))`: NaN in, NaN out; years 0..99 mean 1900..1999;
      a time value beyond TimeClip's range is NaN. */
  function DateUtc(year: Num, month: Num, date: Num): (t: TimeValue)
    ensures t.Time? ==> year.Int? && month.Int? && date.Int? && -MAX_DAYS <= t.day <= MAX_DAYS
  {
    if year.NaN? || month.NaN? || date.NaN? then Invalid
    else
      var fullYear := if 0 <= year.v <= 99 then 1900 + year.v else year.v;
      var day := MakeDay(fullYear, month.v, date.v);
      if -MAX_DAYS <= day <= MAX_DAYS then Time(day) else Invalid
  }

  /** The year, month index and date that `parseDate` hands to Date.UTC. */
  datatype DateFields = DateFields(year: Num, month: Num, date: Num)

  /** The fields `parseDate` reads: None (null) unless the string has exactly three
      '/'-separated parts, then day, month - 1 and the year, a year below 100 taken as
      2000 + year. */
  function ParseDateFields(dateString: string): (r: Option<DateFields>)
    ensures r.None? <==> CountChar(dateString, '/') != 2
  {
    var parts := Split(dateString, '/');
    if |parts| != 3 then None
    else Some(DateFields(FullYear(ParseInt(parts[2])), Pred(ParseInt(parts[1])), ParseInt(parts[0])))
  }

  /** `parseDate`: null, or the Date of the parsed fields. */
  function ParseDate(dateString: string): (r: Option<TimeValue>)
    ensures r.None? <==> CountChar(dateString, '/') != 2
  {
    match ParseDateFields(dateString)
    case None => None
    case Some(f) => Some(DateUtc(f.year, f.month, f.date))
  }

  /** `year < 100 ? 2000 + year : year` (NaN compares false and is kept). */
  function FullYear(year: Num): (r: Num)
    ensures r.NaN? <==> year.NaN?
    ensures year.Int? && year.v < 100 ==> r.v == 2000 + year.v
    ensures year.Int? && year.v >= 100 ==> r == year
  {
    if year.Int? && year.v < 100 then Int(2000 + year.v) else year
  }

  /** A parse result the range route accepts: not null and not an Invalid Date. */
  predicate Usable(d: Option<TimeValue>) {
    d.Some? && d.value.Time?
  }

  /** Reply of `POST /api/shifts/range`. `Crash` is the TypeError thrown by
      `dateString.split` when a field is missing or not a string (Express answers 500);
      `Query` is the SELECT issued for the two validated days. */
  datatype RangeReply = Crash | BadRequest | Query(startDay: int, endDay: int)

  function ShiftsRange(startDate: Option<string>, endDate: Option<string>): (r: RangeReply)
    ensures r.Crash? <==> startDate.None? || endDate.None?
    ensures startDate.Some? && endDate.Some? ==>
      var start := ParseDate(startDate.value);
      var end := ParseDate(endDate.value);
      && (r.BadRequest? <==> !Usable(start) || !Usable(end) || start.value.day > end.value.day)
      && (r.Query? ==> r == Query(start.value.day, end.value.day))
    ensures r.Query? ==> r.startDay <= r.endDay
  {
    if startDate.None? || endDate.None? then Crash
    else
      var start := ParseDate(startDate.value);
      var end := ParseDate(endDate.value);
      if !Usable(start) || !Usable(end) || start.value.day > end.value.day then BadRequest
      else Query(start.value.day, end.value.day)
  }

  /** A date written 'DD/MM/YY' (after any white space) parses back to that very day, for
      the years 2000 to 2099 that two-digit years denote. */
  lemma ParseDateRoundTrip(w: string, c: Civil)
    requires AllWhiteSpace(w) && ValidCivil(c) && 2000 <= c.year <= 2099
    ensures ParseDate(w + FormatDMY(c)) == Some(Time(DaysFromCivil(c.year, c.month, c.day)))
  {
    ParseFormattedFields(w, c);
    DateUtcOfCivil(c);
  }

  /** A formatted date hands its own day, month index and year to Date.UTC. */
  lemma ParseFormattedFields(w: string, c: Civil)
    requires AllWhiteSpace(w) && ValidCivil(c) && 2000 <= c.year <= 2099
    ensures ParseDateFields(w + FormatDMY(c)) == Some(DateFields(Int(c.year), Int(c.month - 1), Int(c.day)))
  {
    var dd, mm, yy := Pad2(c.day), Pad2(c.month), TwoDigitYear(c.year);
    assert w + FormatDMY(c) == w + [dd[0], dd[1]] + "/" + [mm[0], mm[1]] + "/" + [yy[0], yy[1]];
    ParseDigitDate(w, dd[0], dd[1], mm[0], mm[1], yy[0], yy[1], c.day, c.month, c.year);
  }

  /** The three pieces of a date written with two '/' separators. */
  lemma SplitDate(w: string, a: string, b: string, c: string)
    requires AllWhiteSpace(w) && '/' !in a && '/' !in b && '/' !in c
    ensures Split(w + a + "/" + b + "/" + c, '/') == [w + a, b, c]
  {
    assert '/' !in w by {
      forall i | 0 <= i < |w| ensures w[i] != '/' {
        assert IsWhiteSpace(w[i]);
      }
    }
    assert w + a + "/" + b + "/" + c == (w + a + "/" + b) + ['/'] + c;
    SplitLastPiece(w + a + "/" + b, '/', c);
    assert w + a + "/" + b == (w + a) + ['/'] + b;
    SplitLastPiece(w + a, '/', b);
    SplitNoSeparator(w + a, '/');
  }

  /** The fields of a 21st-century date denote that date. */
  lemma DateUtcOfCivil(c: Civil)
    requires ValidCivil(c) && 2000 <= c.year <= 2099
    ensures DateUtc(Int(c.year), Int(c.month - 1), Int(c.day)) == Time(DaysFromCivil(c.year, c.month, c.day))
  {
    var n := DaysFromCivil(c.year, c.month, c.day);
    assert MakeDay(c.year, c.month - 1, c.day) == n;
    assert -MAX_DAYS <= n <= MAX_DAYS;
  }

  /** Any 'DD/MM/YY' of ASCII digits is read field by field with no range check on day or
      month: they go to Date.UTC as they are, so day 32 or month 13 roll over (see
      DayRollsOver and MonthRollsOver). */
  lemma ParseDigitDate(w: string, d0: char, d1: char, m0: char, m1: char, y0: char, y1: char,
                       day: int, month: int, year: int)
    requires AllWhiteSpace(w)
    requires IsDigit(d0) && IsDigit(d1) && IsDigit(m0) && IsDigit(m1) && IsDigit(y0) && IsDigit(y1)
    requires day == 10 * DigitValue(d0) + DigitValue(d1)
    requires month == 10 * DigitValue(m0) + DigitValue(m1)
    requires year == 2000 + 10 * DigitValue(y0) + DigitValue(y1)
    ensures ParseDateFields(w + [d0, d1] + "/" + [m0, m1] + "/" + [y0, y1])
         == Some(DateFields(Int(year), Int(month - 1), Int(day)))
  {
    var dd, mm, yy := [d0, d1], [m0, m1], [y0, y1];
    SplitDate(w, dd, mm, yy);
    DigitFieldValues(w, d0, d1, m0, m1, y0, y1, day, month, year);
  }

  lemma DigitFieldValues(w: string, d0: char, d1: char, m0: char, m1: char, y0: char, y1: char,
                         day: int, month: int, year: int)
    requires AllWhiteSpace(w)
    requires IsDigit(d0) && IsDigit(d1) && IsDigit(m0) && IsDigit(m1) && IsDigit(y0) && IsDigit(y1)
    requires day == 10 * DigitValue(d0) + DigitValue(d1)
    requires month == 10 * DigitValue(m0) + DigitValue(m1)
    requires year == 2000 + 10 * DigitValue(y0) + DigitValue(y1)
    ensures ParseInt(w + [d0, d1]) == Int(day)
    ensures Pred(ParseInt([m0, m1])) == Int(month - 1)
    ensures FullYear(ParseInt([y0, y1])) == Int(year)
  {
    var dd, mm, yy := [d0, d1], [m0, m1], [y0, y1];
    assert ParseInt(w + dd) == Int(day) by {
      ParseIntTwoDigits(w, d0, d1);
    }
    assert Pred(ParseInt(mm)) == Int(month - 1) by {
      ParseTwoDigits(m0, m1);
    }
    assert FullYear(ParseInt(yy)) == Int(year) by {
      ParseTwoDigits(y0, y1);
    }
  }

  /** Day 32 of January is 1 February: MakeDay does not range-check the date. */
  lemma DayRollsOver(year: int)
    ensures MakeDay(year, 0, 32) == MakeDay(year, 1, 1)
  {
    assert MonthOffset(1) + 31 == MonthOffset(2);
    assert MakeDay(year, 0, 32) == MarchYearStart(year - 1) + MonthOffset(1) + 31 - 719468;
    assert MakeDay(year, 1, 1) == MarchYearStart(year - 1) + MonthOffset(2) - 719468;
  }

  /** Month index 12 (written '13') is January of the next year. */
  lemma MonthRollsOver(year: int, date: int)
    ensures MakeDay(year, 12, date) == MakeDay(year + 1, 0, date)
  {
  }

  lemma ParseTwoDigits(a: char, b: char)
    requires IsDigit(a) && IsDigit(b)
    ensures ParseInt([a, b]) == Int(10 * DigitValue(a) + DigitValue(b))
  {
    ParseIntTwoDigits([], a, b);
    assert [] + [a, b] == [a, b];
  }

  /** A day field without a digit gives an Invalid Date, not a null, and the route's NaN
      test answers 400 whatever the other date is. */
  lemma NonDigitDayIsInvalid(p0: string, p1: string, p2: string, other: string)
    requires '/' !in p0 && '/' !in p1 && '/' !in p2
    requires forall i | 0 <= i < |p0| :: !IsDigit(p0[i])
    ensures ParseDate(p0 + "/" + p1 + "/" + p2) == Some(Invalid)
    ensures ShiftsRange(Some(p0 + "/" + p1 + "/" + p2), Some(other)) == BadRequest
  {
    SplitDate([], p0, p1, p2);
    assert [] + p0 == p0;
    NoDigitIsNaN(p0);
  }

  lemma NoDigitIsNaN(s: string)
    requires forall i | 0 <= i < |s| :: !IsDigit(s[i])
    ensures ParseInt(s) == NaN
  {
  }

  /** Reply of `GET /api/shifts`. */
  datatype ShiftsReply = MissingDates | Shifts(startDate: string, endDate: string)

  /** `GET /api/shifts`: 400 unless both query parameters are present and non-empty. */
  function GetShifts(startDate: Option<string>, endDate: Option<string>): (r: ShiftsReply)
    ensures r.MissingDates? <==> startDate.None? || endDate.None? || startDate.value == [] || endDate.value == []
    ensures r.Shifts? ==> r.startDate == startDate.value && r.endDate == endDate.value
  {
    if startDate.None? || endDate.None? || startDate.value == [] || endDate.value == [] then MissingDates
    else Shifts(startDate.value, endDate.value)
  }

  /** Reply of `GET /api/users/check`. */
  datatype CheckReply = CheckFailed | UsersExist | NoUsers {
    function Status(): int {
      match this
      case CheckFailed => 500
      case UsersExist => 200
      case NoUsers => 404
    }
  }

  /** `GET /api/users/check` for the user count the database returned (None: its error). */
  function UsersCheck(count: Option<int>): (r: CheckReply)
    ensures r.UsersExist? <==> count.Some? && count.value > 0
    ensures r.NoUsers? <==> count.Some? && count.value <= 0
    ensures r.Status() == 200 || r.Status() == 404 || r.Status() == 500
  {
    if count.None? then CheckFailed
    else if count.value > 0 then UsersExist
    else NoUsers
  }

  /** A JSON body property as the route reads it; `Obj` is any object or array. */
  datatype JsValue = Undefined | Null | Bool(b: bool) | Number(n: Num) | Str(s: string) | Obj

  /** JavaScript truthiness: undefined, null, false, 0, NaN and "" are falsy, every object
      and array is truthy. */
  predicate Truthy(v: JsValue)
    ensures Truthy(v) ==> v != Undefined && v != Null
    ensures v.Obj? ==> Truthy(v)
    ensures v.Number? && v.n.NaN? ==> !Truthy(v)
  {
    match v
    case Undefined => false
    case Null => false
    case Bool(b) => b
    case Number(n) => n.Int? && n.v != 0
    case Str(s) => s != []
    case Obj => true
  }

  /** `v || 0`. */
  function OrZero(v: JsValue): (r: JsValue)
    ensures Truthy(v) ==> r == v
    ensures !Truthy(v) ==> r == Number(Int(0))
    ensures r != Undefined && r != Null
  {
    if Truthy(v) then v else Number(Int(0))
  }

  datatype UserBody = UserBody(
    firstName: JsValue, lastName: JsValue, phoneNumber: JsValue,
    email: JsValue, password: JsValue, isConnected: JsValue)

  /** Parameters of the INSERT of `POST /api/users`. */
  function InsertUserParams(b: UserBody): (p: seq<JsValue>)
    ensures |p| == 6 && p[..5] == [b.firstName, b.lastName, b.phoneNumber, b.email, b.password]
    ensures p[5] != Undefined && p[5] != Null
    ensures Truthy(p[5]) <==> Truthy(b.isConnected)
    ensures Truthy(b.isConnected) ==> p[5] == b.isConnected
    ensures !Truthy(b.isConnected) ==> p[5] == Number(Int(0))
  {
    [b.firstName, b.lastName, b.phoneNumber, b.email, b.password, OrZero(b.isConnected)]
  }

  /** Parameters of the UPDATE of `PUT /api/users/:id`: those of the INSERT, then the id. */
  function UpdateUserParams(b: UserBody, id: JsValue): (p: seq<JsValue>)
    ensures |p| == 7 && p[..6] == InsertUserParams(b) && p[6] == id
  {
    [b.firstName, b.lastName, b.phoneNumber, b.email, b.password, OrZero(b.isConnected), id]
  }
}
