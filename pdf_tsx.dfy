/** leader-app/components/creatTable.tsx: the week grid with full names, printed as a header
    row and always three shift rows. */
module PdfTsx {
  import opened JsBuiltins
  import opened Calendar
  import opened WeekGrid
  import opened HtmlTable
  import Timetable

  /** `hebrewDays` of this file: Sunday to Saturday, of which only the first six are used. */
  const TsxDays: seq<string> := ["ראשון", "שני", "שלישי", "רביעי", "חמישי", "שישי", "שבת"]

  /** `generateHTML`: the header row and the morning, afternoon and evening rows, each with a
      cell per day holding that day's list for the row's shift. */
  function GenerateHtml(content: seq<DayContent>, weekDates: seq<GridDay>): (t: Table)
    ensures t.header == HeaderRow(weekDates)
    ensures RowShifts(t.rows) == [MorningShift, AfternoonShift, EveningShift]
    ensures ShowsContent(t.rows, content)
  {
    Table(HeaderRow(weekDates),
      [Row(MorningShift, ShiftCells(content, MorningShift)),
       Row(AfternoonShift, ShiftCells(content, AfternoonShift)),
       Row(EveningShift, ShiftCells(content, EveningShift))])
  }

  /** The row of each shift. */
  function RowIndex(s: Shift): (j: nat)
    ensures j < 3
  {
    match s
    case MorningShift => 0
    case AfternoonShift => 1
    case EveningShift => 2
  }

  /** The printed table gives back the grid: two contents with printable lists that print
      the same table have the same lists. */
  lemma TableDeterminesContent(c1: seq<DayContent>, c2: seq<DayContent>, weekDates: seq<GridDay>)
    requires |c1| == |c2| && PrintableContent(c1) && PrintableContent(c2)
    requires GenerateHtml(c1, weekDates) == GenerateHtml(c2, weekDates)
    ensures forall i, s | 0 <= i < |c1| :: ContentBucket(c1[i], s) == ContentBucket(c2[i], s)
  {
    var rows := GenerateHtml(c1, weekDates).rows;
    forall i, s | 0 <= i < |c1|
      ensures ContentBucket(c1[i], s) == ContentBucket(c2[i], s)
    {
      var r := rows[RowIndex(s)];
      assert r.shift == s;
      assert ShowsContent([r], c1) && ShowsContent([r], c2) by {
        assert [r][0] == r;
      }
      SameRowSameLists(r, c1, c2, i);
    }
  }

  /** The table printed for the week from `start`: a header of the image cell and the first
      six labels with their dates, then the three shift rows, whose cell for each day holds
      the names of the tuples with that date and that row's shift, in input order. */
  lemma PrintedWeek(start: int, format: int -> string, ts: seq<ShiftTuple>)
    ensures var t := GenerateHtml(WeekContent(TsxDays, start, format, ts, WholeName), WeekDates(TsxDays, start, format));
      && |t.header| == 7 && RowShifts(t.rows) == [MorningShift, AfternoonShift, EveningShift]
      && (forall i | 0 <= i < 6 :: t.header[i + 1] == HeaderCell(GridDay(TsxDays[i], format(start + i))))
      && forall j, i | 0 <= j < |t.rows| && 0 <= i < 6 ::
           |t.rows[j].cells| == 6 && t.rows[j].cells[i] == TdCell(Selected(ts, format(start + i), t.rows[j].shift, WholeName))
  {
    var content := WeekContent(TsxDays, start, format, ts, WholeName);
    var t := GenerateHtml(content, WeekDates(TsxDays, start, format));
    forall j, i | 0 <= j < |t.rows| && 0 <= i < 6
      ensures |t.rows[j].cells| == 6 && t.rows[j].cells[i] == TdCell(Selected(ts, format(start + i), t.rows[j].shift, WholeName))
    {
      ContentOfWeek(TsxDays, start, format, ts, WholeName, i, t.rows[j].shift);
    }
  }

  /** `generatePDF` up to the printing: the week's dates from the parsed start day, the empty
      grid, the population, `pdfContent` and the table. */
  method GeneratePdf(start: int, employeeShifts: seq<ShiftTuple>) returns (t: Table)
    ensures t == GenerateHtml(WeekContent(TsxDays, start, DateString, employeeShifts, WholeName), WeekDates(TsxDays, start, DateString))
  {
    var weekDates := WeekDates(TsxDays, start, DateString);
    var shiftsByDay := InitialGrid(weekDates);
    shiftsByDay := Populate(shiftsByDay, employeeShifts, WholeName);
    var pdfContent := PdfContent(weekDates, shiftsByDay);
    t := GenerateHtml(pdfContent, weekDates);
  }
}
