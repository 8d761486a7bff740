/** leader-app/components/creatTable.jsx: the week grid with names written as first name
    and last-name initial, printed with the afternoon row only when some day has an
    afternoon name. */
module PdfJsx {
  import opened JsBuiltins
  import opened Calendar
  import opened WeekGrid
  import opened HtmlTable
  import Timetable

  /** `hebrewDays` of this file: Sunday to Friday. */
  const JsxDays: seq<string> := ["ראשון", "שני", "שלישי", "רביעי", "חמישי", "שישי"]

  /** The labels are the timetable's first six days. */
  lemma JsxDaysAreWeekDays()
    ensures JsxDays == Timetable.HebrewDays[..6]
  {
  }

  /** `pdfContent.some(item => item.afternoon.length > 0)`. */
  predicate HasAfternoonData(content: seq<DayContent>)
    ensures !HasAfternoonData(content) <==> forall i | 0 <= i < |content| :: content[i].afternoon == []
  {
    exists i | 0 <= i < |content| :: |content[i].afternoon| > 0
  }

  /** The cell printed for each day when the afternoon row is left out. */
  const EmptyCell: string := "<td></td>"

  /** `generateHTML`: the header row, the morning row, the afternoon row exactly when some
      day has an afternoon name, and the evening row; every row has a cell per day holding
      that day's list for the row's shift. */
  function GenerateHtml(content: seq<DayContent>, weekDates: seq<GridDay>): (t: Table)
    ensures t.header == HeaderRow(weekDates)
    ensures RowShifts(t.rows) == if HasAfternoonData(content) then [MorningShift, AfternoonShift, EveningShift] else [MorningShift, EveningShift]
    ensures ShowsContent(t.rows, content)
  {
    var morningRows := ShiftCells(content, MorningShift);
    var hasAfternoonData := HasAfternoonData(content);
    var afternoonRows := if hasAfternoonData then ShiftCells(content, AfternoonShift) else seq(|content|, _ => EmptyCell);
    var eveningRows := ShiftCells(content, EveningShift);
    Table(HeaderRow(weekDates),
      [Row(MorningShift, morningRows)]
      + (if hasAfternoonData then [Row(AfternoonShift, afternoonRows)] else [])
      + [Row(EveningShift, eveningRows)])
  }

  /** Leaving out the afternoon row loses no name: every non-empty list is printed, in the
      row of its shift and the column of its day. */
  lemma EveryListShown(content: seq<DayContent>, weekDates: seq<GridDay>, i: int, s: Shift)
    requires 0 <= i < |content| && |ContentBucket(content[i], s)| > 0
    ensures var t := GenerateHtml(content, weekDates);
      exists j | 0 <= j < |t.rows| :: t.rows[j].shift == s && t.rows[j].cells[i] == TdCell(ContentBucket(content[i], s))
  {
    var t := GenerateHtml(content, weekDates);
    var j := match s case MorningShift => 0 case AfternoonShift => 1 case EveningShift => |t.rows| - 1;
    if s == AfternoonShift {
      assert |content[i].afternoon| > 0;
    }
    assert t.rows[j].shift == s;
  }

  /** The printed table gives back the grid: two contents with printable lists that print
      the same table have the same lists. */
  lemma TableDeterminesContent(c1: seq<DayContent>, c2: seq<DayContent>, weekDates: seq<GridDay>)
    requires |c1| == |c2| && PrintableContent(c1) && PrintableContent(c2)
    requires GenerateHtml(c1, weekDates) == GenerateHtml(c2, weekDates)
    ensures forall i, s | 0 <= i < |c1| :: ContentBucket(c1[i], s) == ContentBucket(c2[i], s)
  {
    forall i, s | 0 <= i < |c1|
      ensures ContentBucket(c1[i], s) == ContentBucket(c2[i], s)
    {
      TableDeterminesList(c1, c2, weekDates, i, s);
    }
  }

  /** One list at a time: the day's column in the row of the shift, or the missing
      afternoon row, which only happens when both afternoon lists are empty. */
  lemma TableDeterminesList(c1: seq<DayContent>, c2: seq<DayContent>, weekDates: seq<GridDay>, i: int, s: Shift)
    requires |c1| == |c2| && PrintableContent(c1) && PrintableContent(c2)
    requires GenerateHtml(c1, weekDates) == GenerateHtml(c2, weekDates)
    requires 0 <= i < |c1|
    ensures ContentBucket(c1[i], s) == ContentBucket(c2[i], s)
  {
    var t := GenerateHtml(c1, weekDates);
    if s == AfternoonShift && !HasAfternoonData(c1) {
      assert !HasAfternoonData(c2) && c1[i].afternoon == [] == c2[i].afternoon;
    } else {
      var j := match s case MorningShift => 0 case AfternoonShift => 1 case EveningShift => |t.rows| - 1;
      assert t.rows[j].shift == s;
      RowShowsContent(t.rows, c1, j);
      RowShowsContent(t.rows, c2, j);
      SameRowSameLists(t.rows[j], c1, c2, i);
    }
  }

  lemma RowShowsContent(rows: seq<Row>, content: seq<DayContent>, j: int)
    requires ShowsContent(rows, content) && 0 <= j < |rows|
    ensures ShowsContent([rows[j]], content)
  {
    assert [rows[j]][0] == rows[j];
  }

  /** For lists the tuples select, some day has an afternoon name exactly when some tuple
      is dated one of the days and has the afternoon shift. */
  lemma {:induction false} AfternoonDataIff(content: seq<DayContent>, ts: seq<ShiftTuple>, style: NameStyle)
    requires forall i, s | 0 <= i < |content| :: ContentBucket(content[i], s) == Selected(ts, content[i].date, s, style)
    ensures HasAfternoonData(content)
      <==> exists k, i | 0 <= k < |ts| && 0 <= i < |content| :: LandsIn(ts[k], content[i].date, AfternoonShift)
  {
    if HasAfternoonData(content) {
      var i :| 0 <= i < |content| && |content[i].afternoon| > 0;
      assert ContentBucket(content[i], AfternoonShift) == content[i].afternoon;
      SelectedNonEmpty(ts, content[i].date, AfternoonShift, style);
    }
    if exists k, i | 0 <= k < |ts| && 0 <= i < |content| :: LandsIn(ts[k], content[i].date, AfternoonShift) {
      var k, i :| 0 <= k < |ts| && 0 <= i < |content| && LandsIn(ts[k], content[i].date, AfternoonShift);
      SelectedNonEmpty(ts, content[i].date, AfternoonShift, style);
      assert ContentBucket(content[i], AfternoonShift) == content[i].afternoon;
    }
  }

  /** The afternoon row of the week from `start` is printed exactly when some tuple is dated
      one of the six days and has the afternoon shift. */
  lemma AfternoonRowIff(start: int, format: int -> string, ts: seq<ShiftTuple>)
    ensures var dates := WeekDateKeys(start, format);
      HasAfternoonData(WeekContent(JsxDays, start, format, ts, Initial))
      <==> exists k, i | 0 <= k < |ts| && 0 <= i < 6 :: LandsIn(ts[k], dates[i], AfternoonShift)
  {
    var content := WeekContent(JsxDays, start, format, ts, Initial);
    var dates := WeekDateKeys(start, format);
    WeekContentSelected(JsxDays, start, format, ts, Initial);
    AfternoonDataIff(content, ts, Initial);
    assert forall i | 0 <= i < 6 :: content[i].date == dates[i];
  }

  /** The table printed for the week from `start`: the header names the six days with their
      dates, and the cell of each row and day holds the names of the tuples with that date
      and that row's shift, in input order. */
  lemma PrintedWeek(start: int, format: int -> string, ts: seq<ShiftTuple>)
    ensures var t := GenerateHtml(WeekContent(JsxDays, start, format, ts, Initial), WeekDates(JsxDays, start, format));
      && |t.header| == 7
      && (forall i | 0 <= i < 6 :: t.header[i + 1] == HeaderCell(GridDay(JsxDays[i], format(start + i))))
      && forall j, i | 0 <= j < |t.rows| && 0 <= i < 6 ::
           |t.rows[j].cells| == 6 && t.rows[j].cells[i] == TdCell(Selected(ts, format(start + i), t.rows[j].shift, Initial))
  {
    var content := WeekContent(JsxDays, start, format, ts, Initial);
    var t := GenerateHtml(content, WeekDates(JsxDays, start, format));
    forall j, i | 0 <= j < |t.rows| && 0 <= i < 6
      ensures |t.rows[j].cells| == 6 && t.rows[j].cells[i] == TdCell(Selected(ts, format(start + i), t.rows[j].shift, Initial))
    {
      ContentOfWeek(JsxDays, start, format, ts, Initial, i, t.rows[j].shift);
    }
  }

  /** `generatePDF` up to the printing: the week's dates from the parsed start day, the empty
      grid, the population, `pdfContent` and the table. */
  method GeneratePdf(start: int, employeeShifts: seq<ShiftTuple>) returns (t: Table)
    ensures t == GenerateHtml(WeekContent(JsxDays, start, DateString, employeeShifts, Initial), WeekDates(JsxDays, start, DateString))
  {
    var weekDates := WeekDates(JsxDays, start, DateString);
    var shiftsByDay := InitialGrid(weekDates);
    shiftsByDay := Populate(shiftsByDay, employeeShifts, Initial);
    var pdfContent := PdfContent(weekDates, shiftsByDay);
    t := GenerateHtml(pdfContent, weekDates);
  }
}
