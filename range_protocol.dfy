/** How the timetable's week boundary strings travel to the server: the ' DD/MM/YY' strings
    of leader-app/components/timetable.tsx (`getWeekBoundaries`) are read back by the
    server's `parseDate`, which skips the leading space through `parseInt`, and the range
    they span passes the range check of `POST /api/shifts/range`. */
module RangeProtocol {
  import opened JsBuiltins
  import opened Calendar
  import Server
  import Timetable

  /** The day falls in 2000..2099, the century two-digit years are read in. */
  predicate InTwoDigitCentury(n: int) {
    2000 <= CivilFromDays(n).year <= 2099
  }

  /** A ' DD/MM/YY' string parses back to its own day. */
  lemma BoundaryParses(n: int)
    requires InTwoDigitCentury(n)
    ensures Server.ParseDate(" " + DateString(n)) == Some(Server.Time(n))
  {
    var c := CivilFromDays(n);
    Server.ParseDateRoundTrip(" ", c);
    CivilRoundTrip(n);
  }

  /** The boundaries of the week that starts on day `s` (what `getWeekBoundaries` returns for
      any day of that week: Timetable.GetWeekBoundaries is BoundariesFrom of the week start),
      for a week of 2000..2099, parse to its Sunday and its Saturday, and the server accepts
      them as a range spanning exactly those seven days. */
  lemma WeekRangeAccepted(s: int)
    requires InTwoDigitCentury(s) && InTwoDigitCentury(s + 6)
    ensures var b := Timetable.BoundariesFrom(s);
      && Server.ParseDate(b.startOfWeek) == Some(Server.Time(s))
      && Server.ParseDate(b.endOfWeek) == Some(Server.Time(s + 6))
      && Server.ShiftsRange(Some(b.startOfWeek), Some(b.endOfWeek)) == Server.Query(s, s + 6)
  {
    var b := Timetable.BoundariesFrom(s);
    BoundaryParses(s);
    BoundaryParses(s + 6);
    ParsedRangeAccepted(b.startOfWeek, b.endOfWeek, s, s + 6);
  }

  /** `getWeekBoundaries(week)` for a day of 2000..2099 whose week, starting on the Sunday
      `s`, lies in that century: the server accepts the two strings as the range from that
      Sunday to the following Saturday, and the day itself is inside it. */
  lemma {:induction false} GetWeekBoundariesAccepted(week: int, s: int)
    requires s == StartOfWeek(week)
    requires InTwoDigitCentury(s) && InTwoDigitCentury(s + 6)
    ensures var b := Timetable.GetWeekBoundaries(week);
      && Server.ShiftsRange(Some(b.startOfWeek), Some(b.endOfWeek)) == Server.Query(s, s + 6)
      && s <= week <= s + 6
  {
    WeekRangeAccepted(s);
  }

  /** Two strings that parse to days in order pass the range check as those days. */
  lemma ParsedRangeAccepted(startDate: string, endDate: string, startDay: int, endDay: int)
    requires Server.ParseDate(startDate) == Some(Server.Time(startDay))
    requires Server.ParseDate(endDate) == Some(Server.Time(endDay))
    requires startDay <= endDay
    ensures Server.ShiftsRange(Some(startDate), Some(endDate)) == Server.Query(startDay, endDay)
  {
  }
}
