/** The HTML table both versions of leader-app/components/creatTable print: a header row
    with an empty image cell and one `<th>` per day, then one row per shift whose cells hold
    each day's names separated by `<br>`. The table is kept as its cells (the markup
    around them is `RowMarkup` and `TableMarkup`); the CSS and the document template are
    not part of this model. */
module HtmlTable {
  import opened JsBuiltins
  import opened WeekGrid

  const LineBreak: string := "<br>"
  const HeaderImage: string := "<th class=\"header-image\"></th>"

  /** `<td>${names.join('<br>')}</td>`. */
  function TdCell(names: seq<string>): (cell: string)
    ensures |cell| >= 9 && cell[..4] == "<td>" && cell[|cell| - 5..] == "</td>"
    ensures names == [] ==> cell == "<td></td>"
    ensures |names| == 1 ==> cell == "<td>" + names[0] + "</td>"
  {
    var cell := "<td>" + Join(names, LineBreak) + "</td>";
    assert cell[..4] == "<td>" && cell[|cell| - 5..] == "</td>";
    cell
  }

  /** Names that print unambiguously: none is empty and none holds a `<`. */
  predicate Printable(names: seq<string>) {
    Separable(names, LineBreak)
  }

  /** A cell gives back its names: different printable lists never print the same cell. */
  lemma TdCellDetermines(a: seq<string>, b: seq<string>)
    requires Printable(a) && Printable(b) && TdCell(a) == TdCell(b)
    ensures a == b
  {
    var x, y := TdCell(a), TdCell(b);
    assert x[4..|x| - 5] == Join(a, LineBreak);
    assert y[4..|y| - 5] == Join(b, LineBreak);
    JoinInjective(a, b, LineBreak);
  }

  /** A name of either style is never empty; it is printable when its parts hold no `<`. */
  lemma RenderedNamePrintable(style: NameStyle, t: ShiftTuple)
    requires '<' !in t.firstName && '<' !in t.lastName
    ensures |RenderName(style, t)| > 0 && '<' !in RenderName(style, t)
  {
  }

  /** `<th>${day.day}<br>${day.date}</th>`. */
  function HeaderCell(d: GridDay): (cell: string)
    ensures var n := 4 + |d.day|;
      |cell| == n + 4 + |d.date| + 5 && cell[..4] == "<th>" && cell[4..n] == d.day
      && cell[n..n + 4] == LineBreak && cell[n + 4..|cell| - 5] == d.date && cell[|cell| - 5..] == "</th>"
  {
    var cell := "<th>" + d.day + LineBreak + d.date + "</th>";
    var n := 4 + |d.day|;
    assert cell[..4] == "<th>" && cell[4..n] == d.day && cell[n..n + 4] == LineBreak;
    assert cell[n + 4..|cell| - 5] == d.date && cell[|cell| - 5..] == "</th>";
    cell
  }

  /** The header row: the image cell, then one cell per day in order. */
  function HeaderRow(weekDates: seq<GridDay>): (cells: seq<string>)
    ensures |cells| == 1 + |weekDates| && cells[0] == HeaderImage
    ensures forall i | 0 <= i < |weekDates| :: cells[i + 1] == HeaderCell(weekDates[i])
  {
    [HeaderImage] + seq(|weekDates|, i requires 0 <= i < |weekDates| => HeaderCell(weekDates[i]))
  }

  /** `pdfContent.map(item => `<td>...</td>`)` for one shift: a cell per day, in order. */
  function ShiftCells(content: seq<DayContent>, s: Shift): (cells: seq<string>)
    ensures |cells| == |content|
    ensures forall i | 0 <= i < |content| :: cells[i] == TdCell(ContentBucket(content[i], s))
  {
    seq(|content|, i requires 0 <= i < |content| => TdCell(ContentBucket(content[i], s)))
  }

  /** A shift row: `<tr class="shift-header"><th>shift</th>cells</tr>`. */
  datatype Row = Row(shift: Shift, cells: seq<string>)

  datatype Table = Table(header: seq<string>, rows: seq<Row>)

  const RowOpen: string := "<tr class=\"shift-header\"><th>"

  /** A row opens with its shift's header cell and closes with `</tr>`. */
  function RowMarkup(r: Row): (m: string)
    ensures var n := |RowOpen| + |ShiftKey(r.shift)|;
      |m| >= n + 10 && m[..|RowOpen|] == RowOpen && m[|RowOpen|..n] == ShiftKey(r.shift)
      && m[n..n + 5] == "</th>" && m[|m| - 5..] == "</tr>"
  {
    var m := RowOpen + ShiftKey(r.shift) + "</th>" + Join(r.cells, "") + "</tr>";
    var n := |RowOpen| + |ShiftKey(r.shift)|;
    assert m[..|RowOpen|] == RowOpen && m[|RowOpen|..n] == ShiftKey(r.shift);
    assert m[n..n + 5] == "</th>" && m[|m| - 5..] == "</tr>";
    m
  }

  function RowsMarkup(rows: seq<Row>): string {
    if |rows| == 0 then "" else RowsMarkup(rows[..|rows| - 1]) + RowMarkup(rows[|rows| - 1])
  }

  /** The table opens with the header row and closes with `</table>`. */
  function TableMarkup(t: Table): (m: string)
    ensures |m| >= 24 + |Join(t.header, "")| && m[..11] == "<table><tr>" && m[|m| - 8..] == "</table>"
      && m[11..11 + |Join(t.header, "")|] == Join(t.header, "")
  {
    var header := Join(t.header, "");
    var m := "<table><tr>" + header + "</tr>" + RowsMarkup(t.rows) + "</table>";
    assert m[..11] == "<table><tr>" && m[11..11 + |header|] == header && m[|m| - 8..] == "</table>";
    m
  }

  /** The shifts of the rows, top to bottom. */
  function RowShifts(rows: seq<Row>): (shifts: seq<Shift>)
    ensures |shifts| == |rows| && forall j | 0 <= j < |rows| :: shifts[j] == rows[j].shift
  {
    seq(|rows|, j requires 0 <= j < |rows| => rows[j].shift)
  }

  /** Every row has one cell per day, holding that day's list for the row's shift. */
  predicate ShowsContent(rows: seq<Row>, content: seq<DayContent>) {
    forall j | 0 <= j < |rows| ::
      && |rows[j].cells| == |content|
      && forall i | 0 <= i < |content| :: rows[j].cells[i] == TdCell(ContentBucket(content[i], rows[j].shift))
  }

  /** Every list of the content is printable. */
  predicate PrintableContent(content: seq<DayContent>) {
    forall i, s | 0 <= i < |content| :: Printable(ContentBucket(content[i], s))
  }

  /** Two contents of printable lists shown by the same row agree on that row's shift. */
  lemma SameRowSameLists(r: Row, c1: seq<DayContent>, c2: seq<DayContent>, i: int)
    requires |c1| == |c2| && ShowsContent([r], c1) && ShowsContent([r], c2) && 0 <= i < |c1|
    requires PrintableContent(c1) && PrintableContent(c2)
    ensures ContentBucket(c1[i], r.shift) == ContentBucket(c2[i], r.shift)
  {
    assert [r][0] == r;
    TdCellDetermines(ContentBucket(c1[i], r.shift), ContentBucket(c2[i], r.shift));
  }
}
