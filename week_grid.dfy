/** The week grid both versions of leader-app/components/creatTable build before printing:
    six dated days, each with a morning, an afternoon and an evening list of names, filled
    from the flat `[index, firstName, lastName, shift, date]` tuples the timetable saves.
    The two files differ only in how a name is written (NameStyle) and in the HTML they
    make of the grid (modules PdfJsx and PdfTsx). */
module WeekGrid {
  import opened JsBuiltins
  import opened Calendar
  import Timetable

  type ShiftTuple = Timetable.ShiftTuple

  /** The three lists of a day. */
  datatype Shift = MorningShift | AfternoonShift | EveningShift

  /** The key of a shift's list in the bucket object `{ בוקר: [], צהריים: [], ערב: [] }`. */
  function ShiftKey(s: Shift): string {
    match s
    case MorningShift => Timetable.Morning
    case AfternoonShift => Timetable.Afternoon
    case EveningShift => Timetable.Evening
  }

  /** `bucketsOfDay[key] !== undefined`: the shift whose list a key names, if any. */
  function ShiftOf(key: string): (r: Option<Shift>)
    ensures r.Some? ==> ShiftKey(r.value) == key
  {
    if key == Timetable.Morning then Some(MorningShift)
    else if key == Timetable.Afternoon then Some(AfternoonShift)
    else if key == Timetable.Evening then Some(EveningShift)
    else None
  }

  /** Every shift's key names that shift, so exactly the three keys name a list. */
  lemma ShiftOfKey(s: Shift)
    ensures ShiftOf(ShiftKey(s)) == Some(s)
  {
  }

  /** One day's name lists. */
  datatype Buckets = Buckets(morning: seq<string>, afternoon: seq<string>, evening: seq<string>)

  const EmptyBuckets: Buckets := Buckets([], [], [])

  function Bucket(b: Buckets, s: Shift): seq<string> {
    match s
    case MorningShift => b.morning
    case AfternoonShift => b.afternoon
    case EveningShift => b.evening
  }

  /** `bucketsOfDay[key].push(name)`: that list gains the name at its end and the other two
      are untouched. */
  function Push(b: Buckets, s: Shift, name: string): (r: Buckets)
    ensures forall s' :: Bucket(r, s') == if s' == s then Bucket(b, s') + [name] else Bucket(b, s')
  {
    match s
    case MorningShift => b.(morning := b.morning + [name])
    case AfternoonShift => b.(afternoon := b.afternoon + [name])
    case EveningShift => b.(evening := b.evening + [name])
  }

  /** How a tuple's name is printed: creatTable.jsx writes the first name and the initial of
      the last name followed by a dot, creatTable.tsx the full first and last names. */
  datatype NameStyle = Initial | WholeName

  /** `s.charAt(0)`: the first character, or "" for the empty string. */
  function CharAt0(s: string): (r: string)
    ensures |s| == 0 ==> r == ""
    ensures |s| > 0 ==> r == [s[0]]
  {
    s[..if |s| == 0 then 0 else 1]
  }

  /** The printed name: the first name and a space, then the initial and a dot, or the
      whole last name. */
  function RenderName(style: NameStyle, t: ShiftTuple): (r: string)
    ensures |r| > |t.firstName| && r[..|t.firstName| + 1] == t.firstName + " "
    ensures style == Initial ==> r[|r| - 1] == '.' && |r| <= |t.firstName| + 3
    ensures style == Initial && |t.lastName| > 0 ==> r[|t.firstName| + 1] == t.lastName[0]
    ensures style == WholeName ==> r[|t.firstName| + 1..] == t.lastName
  {
    match style
    case Initial => t.firstName + " " + CharAt0(t.lastName) + "."
    case WholeName => t.firstName + " " + t.lastName
  }

  /** An entry of `weekDates`: the Hebrew day label and the 'DD/MM/YY' date, which is also
      the entry's `dateString`, the key of its buckets. */
  datatype GridDay = GridDay(day: string, date: string)

  /** `Array.from({ length: 6 }, ...)`: six consecutive days from `start`, labelled by the
      first six labels and dated by `format` (moment's 'DD/MM/YY' format; Calendar.DateString
      in PdfJsx and PdfTsx). */
  function WeekDates(labels: seq<string>, start: int, format: int -> string): (days: seq<GridDay>)
    requires |labels| >= 6
    ensures |days| == 6
    ensures forall i | 0 <= i < 6 :: days[i].day == labels[i] && days[i].date == format(start + i)
  {
    seq(6, i requires 0 <= i < 6 => GridDay(labels[i], format(start + i)))
  }

  function DateKeys(days: seq<GridDay>): set<string> {
    set i | 0 <= i < |days| :: days[i].date
  }

  /** The format tells the six days from `start` apart. */
  predicate SeparatesWeek(format: int -> string, start: int) {
    forall m, n | start <= m < n < start + 6 :: format(m) != format(n)
  }

  /** 'DD/MM/YY' tells apart the six days of any week from 1 March of year 0 on. */
  lemma DateStringSeparatesWeek(start: int)
    requires EraZeroStart <= start
    ensures SeparatesWeek(DateString, start)
  {
    forall m, n | start <= m < n < start + 6
      ensures DateString(m) != DateString(n)
    {
      DateStringsDiffer(m, n);
    }
  }

  /** `shiftsByDay`: bucket objects by date key. */
  type Grid = map<string, Buckets>

  function EmptyGrid(days: seq<GridDay>): (g: Grid)
    ensures g.Keys == DateKeys(days)
    ensures forall k | k in g :: g[k] == EmptyBuckets
  {
    map k | k in DateKeys(days) :: EmptyBuckets
  }

  /** The `reduce` over `weekDates`: every day's key gets three empty lists. */
  method InitialGrid(weekDates: seq<GridDay>) returns (acc: Grid)
    ensures acc == EmptyGrid(weekDates)
  {
    acc := map[];
    for i := 0 to |weekDates|
      invariant acc.Keys == DateKeys(weekDates[..i])
      invariant forall k | k in acc :: acc[k] == EmptyBuckets
    {
      acc := acc[weekDates[i].date := EmptyBuckets];
      assert DateKeys(weekDates[..i + 1]) == DateKeys(weekDates[..i]) + {weekDates[i].date} by {
        assert forall j | 0 <= j < i :: weekDates[..i + 1][j] == weekDates[..i][j];
        assert weekDates[..i + 1][i] == weekDates[i];
      }
    }
    assert weekDates[..|weekDates|] == weekDates;
  }

  /** A tuple is placed when its date is a key of the grid and its shift names a list. */
  predicate Kept(g: Grid, t: ShiftTuple) {
    t.date in g && ShiftOf(t.timeOfDay).Some?
  }

  /** One step of the population `forEach`: a kept tuple's name goes at the end of its
      date's list for its shift and nowhere else; any other tuple leaves the grid as it is
      (the source only logs an error). */
  function Place(g: Grid, t: ShiftTuple, style: NameStyle): (r: Grid)
    ensures r.Keys == g.Keys
    ensures !Kept(g, t) ==> r == g
  {
    if Kept(g, t) then g[t.date := Push(g[t.date], ShiftOf(t.timeOfDay).value, RenderName(style, t))] else g
  }

  /** After one step a list holds what it held, followed by the tuple's name exactly when the
      tuple is dated that day and its shift names that list. */
  lemma PlaceBucket(g: Grid, t: ShiftTuple, style: NameStyle, k: string, s: Shift)
    requires k in g
    ensures Bucket(Place(g, t, style)[k], s) == Bucket(g[k], s) + Landed(t, k, s, style)
  {
    if !(t.date == k && ShiftOf(t.timeOfDay) == Some(s)) {
      assert Bucket(g[k], s) + [] == Bucket(g[k], s);
    }
  }

  /** The grid after the tuples have been placed in order. */
  function Placed(g: Grid, ts: seq<ShiftTuple>, style: NameStyle): (r: Grid)
    ensures r.Keys == g.Keys
  {
    if |ts| == 0 then g else Place(Placed(g, ts[..|ts| - 1], style), ts[|ts| - 1], style)
  }

  /** `employeeShifts.forEach(...)`. */
  method Populate(acc: Grid, employeeShifts: seq<ShiftTuple>, style: NameStyle) returns (g: Grid)
    ensures g == Placed(acc, employeeShifts, style)
  {
    g := acc;
    for i := 0 to |employeeShifts|
      invariant g == Placed(acc, employeeShifts[..i], style)
    {
      var t := employeeShifts[i];
      assert employeeShifts[..i + 1][..i] == employeeShifts[..i];
      if t.date in g {
        var shift := ShiftOf(t.timeOfDay);
        if shift.Some? {
          g := g[t.date := Push(g[t.date], shift.value, RenderName(style, t))];
        }
      }
    }
    assert employeeShifts[..|employeeShifts|] == employeeShifts;
  }

  /** Reference definition of a list's contents: the names of the tuples with that date and
      that shift, in input order, repetitions included. */
  function Selected(ts: seq<ShiftTuple>, date: string, s: Shift, style: NameStyle): seq<string> {
    if |ts| == 0 then []
    else
      var t := ts[|ts| - 1];
      Selected(ts[..|ts| - 1], date, s, style) + Landed(t, date, s, style)
  }

  /** The name a tuple adds to the list of `date` for `s`: its own when it has that date and
      that shift, none otherwise. */
  function Landed(t: ShiftTuple, date: string, s: Shift, style: NameStyle): seq<string> {
    if t.date == date && ShiftOf(t.timeOfDay) == Some(s) then [RenderName(style, t)] else []
  }

  /** The tuple has that date and a shift naming that list. */
  predicate LandsIn(t: ShiftTuple, date: string, s: Shift) {
    t.date == date && ShiftOf(t.timeOfDay) == Some(s)
  }

  /** A list is non-empty exactly when some tuple has its date and its shift. */
  lemma {:induction false} SelectedNonEmpty(ts: seq<ShiftTuple>, date: string, s: Shift, style: NameStyle)
    ensures |Selected(ts, date, s, style)| > 0 <==> exists j | 0 <= j < |ts| :: LandsIn(ts[j], date, s)
  {
    if |ts| > 0 {
      var n := |ts| - 1;
      SelectedNonEmpty(ts[..n], date, s, style);
      assert |Selected(ts, date, s, style)| == |Selected(ts[..n], date, s, style)| + |Landed(ts[n], date, s, style)|;
      assert |Landed(ts[n], date, s, style)| > 0 <==> LandsIn(ts[n], date, s);
      if exists j | 0 <= j < n :: LandsIn(ts[..n][j], date, s) {
        var j :| 0 <= j < n && LandsIn(ts[..n][j], date, s);
        assert ts[j] == ts[..n][j];
      }
      if exists j | 0 <= j < |ts| :: LandsIn(ts[j], date, s) {
        var j :| 0 <= j < |ts| && LandsIn(ts[j], date, s);
        if j < n {
          assert ts[..n][j] == ts[j];
        }
      }
    }
  }

  /** Every list ends up holding what it held plus exactly the names of the tuples with its
      date and shift, in input order. */
  lemma {:induction false} PlacedBuckets(g: Grid, ts: seq<ShiftTuple>, style: NameStyle, k: string, s: Shift)
    requires k in g
    ensures Bucket(Placed(g, ts, style)[k], s) == Bucket(g[k], s) + Selected(ts, k, s, style)
  {
    if |ts| > 0 {
      var n := |ts| - 1;
      PlacedBuckets(g, ts[..n], style, k, s);
      var before := Placed(g, ts[..n], style);
      assert Placed(g, ts, style) == Place(before, ts[n], style);
      assert Selected(ts, k, s, style) == Selected(ts[..n], k, s, style) + Landed(ts[n], k, s, style);
      BucketStep(before, ts[n], style, k, s, Bucket(g[k], s), Selected(ts[..n], k, s, style));
    }
  }

  lemma BucketStep(before: Grid, t: ShiftTuple, style: NameStyle, k: string, s: Shift, a: seq<string>, b: seq<string>)
    requires k in before && Bucket(before[k], s) == a + b
    ensures Bucket(Place(before, t, style)[k], s) == a + (b + Landed(t, k, s, style))
  {
    PlaceBucket(before, t, style, k, s);
    assert (a + b) + Landed(t, k, s, style) == a + (b + Landed(t, k, s, style));
  }

  /** A tuple that is not kept changes nothing: the grid after it is the grid before it. */
  lemma DroppedTuple(g: Grid, ts: seq<ShiftTuple>, t: ShiftTuple, style: NameStyle)
    requires !Kept(Placed(g, ts, style), t)
    ensures Placed(g, ts + [t], style) == Placed(g, ts, style)
  {
    assert (ts + [t])[..|ts|] == ts;
  }

  predicate SameButIndex(t: ShiftTuple, u: ShiftTuple) {
    t.firstName == u.firstName && t.lastName == u.lastName && t.timeOfDay == u.timeOfDay && t.date == u.date
  }

  /** The index field plays no part in the placement. */
  lemma {:induction false} IndexIrrelevant(g: Grid, ts: seq<ShiftTuple>, us: seq<ShiftTuple>, style: NameStyle)
    requires |ts| == |us| && forall i | 0 <= i < |ts| :: SameButIndex(ts[i], us[i])
    ensures Placed(g, ts, style) == Placed(g, us, style)
  {
    if |ts| > 0 {
      var n := |ts| - 1;
      IndexIrrelevant(g, ts[..n], us[..n], style);
      assert SameButIndex(ts[n], us[n]);
      assert RenderName(style, ts[n]) == RenderName(style, us[n]);
    }
  }

  /** An entry of `pdfContent`. The `|| [""]` fallbacks of the source never apply: a list,
      even an empty one, is truthy. */
  datatype DayContent = DayContent(day: string, date: string, morning: seq<string>, afternoon: seq<string>, evening: seq<string>)

  function ContentBucket(c: DayContent, s: Shift): seq<string> {
    Bucket(Buckets(c.morning, c.afternoon, c.evening), s)
  }

  /** `weekDates.map(...)` into `pdfContent`: the same days, in the same order, each with its
      key's three lists. */
  function PdfContent(weekDates: seq<GridDay>, g: Grid): (content: seq<DayContent>)
    requires DateKeys(weekDates) <= g.Keys
    ensures |content| == |weekDates|
    ensures forall i | 0 <= i < |weekDates| ::
      && content[i].day == weekDates[i].day && content[i].date == weekDates[i].date
      && forall s :: ContentBucket(content[i], s) == Bucket(g[weekDates[i].date], s)
  {
    seq(|weekDates|, i requires 0 <= i < |weekDates| =>
      assert weekDates[i].date in DateKeys(weekDates);
      var b := g[weekDates[i].date];
      DayContent(weekDates[i].day, weekDates[i].date, b.morning, b.afternoon, b.evening))
  }

  /** What creatTable prints for a week from `start` and a list of tuples. */
  function WeekContent(labels: seq<string>, start: int, format: int -> string, ts: seq<ShiftTuple>, style: NameStyle): seq<DayContent>
    requires |labels| >= 6
  {
    var days := WeekDates(labels, start, format);
    PdfContent(days, Placed(EmptyGrid(days), ts, style))
  }

  /** Day `i` of the printed grid is `start + i` under label `i`, and each of its lists holds
      exactly the names of the tuples dated that day for that shift, in input order. */
  lemma ContentOfWeek(labels: seq<string>, start: int, format: int -> string, ts: seq<ShiftTuple>, style: NameStyle, i: int, s: Shift)
    requires |labels| >= 6 && 0 <= i < 6
    ensures var content := WeekContent(labels, start, format, ts, style);
      && |content| == 6
      && content[i].day == labels[i] && content[i].date == format(start + i)
      && ContentBucket(content[i], s) == Selected(ts, format(start + i), s, style)
  {
    var days := WeekDates(labels, start, format);
    var key := format(start + i);
    assert days[i].date == key && days[i].day == labels[i];
    var g := Placed(EmptyGrid(days), ts, style);
    var content := PdfContent(days, g);
    assert content == WeekContent(labels, start, format, ts, style);
    assert Bucket(g[key], s) == Selected(ts, key, s, style) by {
      assert key in DateKeys(days);
      PlacedBuckets(EmptyGrid(days), ts, style, key, s);
    }
    assert content[i].day == labels[i] && content[i].date == key && ContentBucket(content[i], s) == Bucket(g[key], s);
  }

  // ---- No loss, no duplication ----

  /** A printed name with the date and the shift it is printed under. */
  type Entry = (string, Shift, string)

  /** The entries of one list. */
  function ListEntries(date: string, s: Shift, names: seq<string>): (m: multiset<Entry>)
    ensures |m| == |names|
  {
    if |names| == 0 then multiset{}
    else ListEntries(date, s, names[..|names| - 1]) + multiset{(date, s, names[|names| - 1])}
  }

  lemma ListEntriesSnoc(date: string, s: Shift, names: seq<string>, x: string)
    ensures ListEntries(date, s, names + [x]) == ListEntries(date, s, names) + multiset{(date, s, x)}
  {
    assert (names + [x])[..|names|] == names;
  }

  function DayEntries(date: string, b: Buckets): multiset<Entry> {
    ListEntries(date, MorningShift, b.morning)
    + ListEntries(date, AfternoonShift, b.afternoon)
    + ListEntries(date, EveningShift, b.evening)
  }

  /** The entries printed for the listed days. */
  function ContentEntries(content: seq<DayContent>): multiset<Entry> {
    if |content| == 0 then multiset{}
    else
      var c := content[|content| - 1];
      ContentEntries(content[..|content| - 1]) + DayEntries(c.date, Buckets(c.morning, c.afternoon, c.evening))
  }

  /** The number of names printed for the listed days. */
  function NameCount(content: seq<DayContent>): nat {
    if |content| == 0 then 0
    else
      var c := content[|content| - 1];
      NameCount(content[..|content| - 1]) + |c.morning| + |c.afternoon| + |c.evening|
  }

  lemma {:induction false} NameCountEntries(content: seq<DayContent>)
    ensures |ContentEntries(content)| == NameCount(content)
  {
    if |content| > 0 {
      NameCountEntries(content[..|content| - 1]);
    }
  }

  predicate KeptIn(dates: seq<string>, t: ShiftTuple) {
    t.date in dates && ShiftOf(t.timeOfDay).Some?
  }

  /** The tuples whose date is one of `dates` and whose shift names a list, in order. */
  function KeptTuples(dates: seq<string>, ts: seq<ShiftTuple>): seq<ShiftTuple> {
    if |ts| == 0 then []
    else
      var t := ts[|ts| - 1];
      KeptTuples(dates, ts[..|ts| - 1]) + (if KeptIn(dates, t) then [t] else [])
  }

  /** The entry a tuple contributes, if it is kept. */
  function TupleEntry(dates: seq<string>, t: ShiftTuple, style: NameStyle): multiset<Entry> {
    if KeptIn(dates, t) then multiset{(t.date, ShiftOf(t.timeOfDay).value, RenderName(style, t))} else multiset{}
  }

  /** One entry per kept tuple. */
  function KeptEntries(dates: seq<string>, ts: seq<ShiftTuple>, style: NameStyle): (m: multiset<Entry>)
    ensures |m| == |KeptTuples(dates, ts)|
  {
    if |ts| == 0 then multiset{} else KeptEntries(dates, ts[..|ts| - 1], style) + TupleEntry(dates, ts[|ts| - 1], style)
  }

  /** The entries of the three lists the tuples select for a date. */
  function SelectedEntries(date: string, ts: seq<ShiftTuple>, style: NameStyle): multiset<Entry> {
    ListEntries(date, MorningShift, Selected(ts, date, MorningShift, style))
    + ListEntries(date, AfternoonShift, Selected(ts, date, AfternoonShift, style))
    + ListEntries(date, EveningShift, Selected(ts, date, EveningShift, style))
  }

  function WeekEntries(dates: seq<string>, ts: seq<ShiftTuple>, style: NameStyle): multiset<Entry> {
    if |dates| == 0 then multiset{}
    else WeekEntries(dates[..|dates| - 1], ts, style) + SelectedEntries(dates[|dates| - 1], ts, style)
  }

  /** The list a tuple selects grows by its entry; the others stay as they were. */
  lemma SelectedListStep(date: string, pre: seq<ShiftTuple>, t: ShiftTuple, s: Shift, style: NameStyle)
    ensures ListEntries(date, s, Selected(pre + [t], date, s, style)) == ListEntries(date, s, Selected(pre, date, s, style))
      + LandedEntry(date, t, s, style)
  {
    assert (pre + [t])[..|pre|] == pre;
    if t.date == date && ShiftOf(t.timeOfDay) == Some(s) {
      ListEntriesSnoc(date, s, Selected(pre, date, s, style), RenderName(style, t));
    } else {
      var before := Selected(pre, date, s, style);
      assert Selected(pre + [t], date, s, style) == before + [];
      assert before + [] == before;
      assert ListEntries(date, s, before) + multiset{} == ListEntries(date, s, before);
    }
  }

  lemma SelectedEntriesStep(date: string, pre: seq<ShiftTuple>, t: ShiftTuple, style: NameStyle)
    ensures SelectedEntries(date, pre + [t], style) == SelectedEntries(date, pre, style) + TupleEntry([date], t, style)
  {
    SelectedListStep(date, pre, t, MorningShift, style);
    SelectedListStep(date, pre, t, AfternoonShift, style);
    SelectedListStep(date, pre, t, EveningShift, style);
    var dm, da, de := LandedEntry(date, t, MorningShift, style), LandedEntry(date, t, AfternoonShift, style), LandedEntry(date, t, EveningShift, style);
    LandingsOfTuple(date, t, style);
    SumOfSteps(ListEntries(date, MorningShift, Selected(pre, date, MorningShift, style)),
               ListEntries(date, AfternoonShift, Selected(pre, date, AfternoonShift, style)),
               ListEntries(date, EveningShift, Selected(pre, date, EveningShift, style)),
               dm, da, de, TupleEntry([date], t, style));
  }

  /** The entry a tuple adds to one list of a date. */
  function LandedEntry(date: string, t: ShiftTuple, s: Shift, style: NameStyle): multiset<Entry> {
    if t.date == date && ShiftOf(t.timeOfDay) == Some(s) then multiset{(date, s, RenderName(style, t))} else multiset{}
  }

  /** Over the three lists of its date a tuple adds its one entry, if it is kept. */
  lemma LandingsOfTuple(date: string, t: ShiftTuple, style: NameStyle)
    ensures LandedEntry(date, t, MorningShift, style) + LandedEntry(date, t, AfternoonShift, style) + LandedEntry(date, t, EveningShift, style)
      == TupleEntry([date], t, style)
  {
    var sh := ShiftOf(t.timeOfDay);
    if t.date == date && sh.Some? {
      assert t.date in [date];
    } else {
      assert !KeptIn([date], t);
    }
  }

  lemma SumOfSteps(a: multiset<Entry>, b: multiset<Entry>, c: multiset<Entry>, da: multiset<Entry>, db: multiset<Entry>, dc: multiset<Entry>, d: multiset<Entry>)
    requires da + db + dc == d
    ensures (a + da) + (b + db) + (c + dc) == a + b + c + d
  {
  }

  /** A tuple adds its entry to the day it is dated, when the dates are distinct. */
  lemma {:induction false} WeekEntriesStep(dates: seq<string>, pre: seq<ShiftTuple>, t: ShiftTuple, style: NameStyle)
    requires Timetable.Distinct(dates)
    ensures WeekEntries(dates, pre + [t], style) == WeekEntries(dates, pre, style) + TupleEntry(dates, t, style)
  {
    if |dates| > 0 {
      var n := |dates| - 1;
      var front := dates[..n];
      assert Timetable.Distinct(front) by {
        assert forall j | 0 <= j < n :: front[j] == dates[j];
      }
      WeekEntriesStep(front, pre, t, style);
      SelectedEntriesStep(dates[n], pre, t, style);
      TupleEntrySplit(dates, t, style);
      assert WeekEntries(dates, pre + [t], style) == WeekEntries(front, pre + [t], style) + SelectedEntries(dates[n], pre + [t], style);
      assert WeekEntries(dates, pre, style) == WeekEntries(front, pre, style) + SelectedEntries(dates[n], pre, style);
      SumOfTwoSteps(WeekEntries(front, pre, style), SelectedEntries(dates[n], pre, style),
                    TupleEntry(front, t, style), TupleEntry([dates[n]], t, style));
    }
  }

  lemma SumOfTwoSteps(a: multiset<Entry>, b: multiset<Entry>, da: multiset<Entry>, db: multiset<Entry>)
    ensures (a + da) + (b + db) == (a + b) + (da + db)
  {
  }

  lemma TupleEntrySplit(dates: seq<string>, t: ShiftTuple, style: NameStyle)
    requires |dates| > 0 && Timetable.Distinct(dates)
    ensures var n := |dates| - 1;
      TupleEntry(dates, t, style) == TupleEntry(dates[..n], t, style) + TupleEntry([dates[n]], t, style)
  {
    var n := |dates| - 1;
    var front := dates[..n];
    assert dates == front + [dates[n]];
    assert t.date in front ==> t.date != dates[n] by {
      if t.date in front {
        var j :| 0 <= j < n && front[j] == t.date;
        assert dates[j] == t.date;
      }
    }
  }

  lemma {:induction false} WeekEntriesNone(dates: seq<string>, style: NameStyle)
    ensures WeekEntries(dates, [], style) == multiset{}
  {
    if |dates| > 0 {
      WeekEntriesNone(dates[..|dates| - 1], style);
    }
  }

  /** The lists the tuples select for distinct dates hold one entry per kept tuple. */
  lemma {:induction false} WeekEntriesKept(dates: seq<string>, ts: seq<ShiftTuple>, style: NameStyle)
    requires Timetable.Distinct(dates)
    ensures WeekEntries(dates, ts, style) == KeptEntries(dates, ts, style)
  {
    if |ts| == 0 {
      WeekEntriesNone(dates, style);
    } else {
      var n := |ts| - 1;
      WeekEntriesKept(dates, ts[..n], style);
      assert ts == ts[..n] + [ts[n]];
      WeekEntriesStep(dates, ts[..n], ts[n], style);
    }
  }

  function ContentDates(content: seq<DayContent>): (dates: seq<string>)
    ensures |dates| == |content| && forall i | 0 <= i < |content| :: dates[i] == content[i].date
  {
    seq(|content|, i requires 0 <= i < |content| => content[i].date)
  }

  /** Content whose lists are those the tuples select prints their entries. */
  lemma {:induction false} ContentEntriesSelected(content: seq<DayContent>, ts: seq<ShiftTuple>, style: NameStyle)
    requires forall i, s | 0 <= i < |content| :: ContentBucket(content[i], s) == Selected(ts, content[i].date, s, style)
    ensures ContentEntries(content) == WeekEntries(ContentDates(content), ts, style)
  {
    if |content| > 0 {
      var n := |content| - 1;
      var pre := content[..n];
      assert forall j | 0 <= j < n :: pre[j] == content[j];
      ContentEntriesSelected(pre, ts, style);
      DaySelected(content[n], ts, style);
      ContentEntriesStep(content, ts, style);
    }
  }

  lemma ContentEntriesStep(content: seq<DayContent>, ts: seq<ShiftTuple>, style: NameStyle)
    requires |content| > 0
    requires var pre := content[..|content| - 1];
      ContentEntries(pre) == WeekEntries(ContentDates(pre), ts, style)
    requires var c := content[|content| - 1];
      DayEntries(c.date, Buckets(c.morning, c.afternoon, c.evening)) == SelectedEntries(c.date, ts, style)
    ensures ContentEntries(content) == WeekEntries(ContentDates(content), ts, style)
  {
    var n := |content| - 1;
    var pre := content[..n];
    var dates := ContentDates(content);
    var c := content[n];
    assert dates[..n] == ContentDates(pre);
    assert dates[n] == c.date;
    assert WeekEntries(dates, ts, style) == WeekEntries(dates[..n], ts, style) + SelectedEntries(dates[n], ts, style);
  }

  /** A day whose lists are those the tuples select prints the selected entries. */
  lemma DaySelected(c: DayContent, ts: seq<ShiftTuple>, style: NameStyle)
    requires forall s :: ContentBucket(c, s) == Selected(ts, c.date, s, style)
    ensures DayEntries(c.date, Buckets(c.morning, c.afternoon, c.evening)) == SelectedEntries(c.date, ts, style)
  {
    assert c.morning == Selected(ts, c.date, MorningShift, style) by { assert ContentBucket(c, MorningShift) == c.morning; }
    assert c.afternoon == Selected(ts, c.date, AfternoonShift, style) by { assert ContentBucket(c, AfternoonShift) == c.afternoon; }
    assert c.evening == Selected(ts, c.date, EveningShift, style) by { assert ContentBucket(c, EveningShift) == c.evening; }
  }

  /** The six date keys of the week from `start`. */
  function WeekDateKeys(start: int, format: int -> string): (dates: seq<string>)
    ensures |dates| == 6 && forall i | 0 <= i < 6 :: dates[i] == format(start + i)
  {
    seq(6, i requires 0 <= i < 6 => format(start + i))
  }

  /** No loss, no duplication: when the format tells the six days apart, the (date, shift,
      name) entries printed are exactly those of the kept tuples, as many times each as there
      are such tuples, and the number of names printed is the number of tuples kept. */
  lemma NoLossNoDuplication(labels: seq<string>, start: int, format: int -> string, ts: seq<ShiftTuple>, style: NameStyle)
    requires |labels| >= 6 && SeparatesWeek(format, start)
    ensures var content := WeekContent(labels, start, format, ts, style);
      && ContentEntries(content) == KeptEntries(WeekDateKeys(start, format), ts, style)
      && NameCount(content) == |KeptTuples(WeekDateKeys(start, format), ts)|
  {
    var content := WeekContent(labels, start, format, ts, style);
    var dates := WeekDateKeys(start, format);
    WeekContentSelected(labels, start, format, ts, style);
    ContentEntriesSelected(content, ts, style);
    assert Timetable.Distinct(dates);
    WeekEntriesKept(dates, ts, style);
    NameCountEntries(content);
  }

  /** Every list of the printed week is the one the tuples select, under the week's dates. */
  lemma WeekContentSelected(labels: seq<string>, start: int, format: int -> string, ts: seq<ShiftTuple>, style: NameStyle)
    requires |labels| >= 6
    ensures var content := WeekContent(labels, start, format, ts, style);
      && (forall i, s | 0 <= i < |content| :: ContentBucket(content[i], s) == Selected(ts, content[i].date, s, style))
      && ContentDates(content) == WeekDateKeys(start, format)
  {
    var content := WeekContent(labels, start, format, ts, style);
    var dates := WeekDateKeys(start, format);
    forall i, s | 0 <= i < |content|
      ensures ContentBucket(content[i], s) == Selected(ts, content[i].date, s, style)
    {
      ContentOfWeek(labels, start, format, ts, style, i, s);
    }
    assert ContentDates(content) == dates by {
      forall i | 0 <= i < 6
        ensures ContentDates(content)[i] == dates[i]
      {
        ContentOfWeek(labels, start, format, ts, style, i, MorningShift);
      }
    }
  }
}
