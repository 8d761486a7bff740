/** The weekly timetable screen (leader-app/components/timetable.tsx): the nested picker
    selection `day -> shift -> picker index -> employee id`, the six-day week window, week
    paging, the ' DD/MM/YY' boundary strings, and the flattening of the selection into the
    `[index, firstName, lastName, shift, date]` tuples that are sent and printed.
    The current week is a day number (see Calendar); dayjs is left out. */
module Timetable {
  import opened JsBuiltins
  import opened Calendar

  /** `hebrewDays`: Sunday to Saturday. */
  const HebrewDays: seq<string> := ["ראשון", "שני", "שלישי", "רביעי", "חמישי", "שישי", "שבת"]
  const Friday: string := "שישי"
  const Morning: string := "בוקר"
  const Afternoon: string := "צהריים"
  const Evening: string := "ערב"

  lemma FridayIsDayFive(i: int)
    requires 0 <= i < 7
    ensures HebrewDays[i] == Friday <==> i == 5
  {
  }

  // ---------------------------------------------------------------------------------
  // The selection state

  /** A picker's value: the placeholder item (value "") or the id of the chosen employee. */
  datatype Choice = Placeholder | Picked(id: int)

  /** `if (employeeId)`: the placeholder "" and the id 0 are falsy. */
  predicate IsChosen(c: Choice) {
    c.Picked? && c.id != 0
  }

  /** The pickers of one shift, `{[pickerIndex]: employeeId}`. Integer-like keys of a
      JavaScript object enumerate in ascending order, so the row is kept sorted by index. */
  type PickerRow = seq<(nat, Choice)>

  /** The shifts of one day, `{[timeOfDay]: pickers}`, in insertion order. */
  type ShiftRows = seq<(string, PickerRow)>

  /** `selectedEmployees`: day name to its shifts; days are only ever looked up. */
  type Selection = map<string, ShiftRows>

  predicate SortedKeys(row: PickerRow) {
    forall i, j | 0 <= i < j < |row| :: row[i].0 < row[j].0
  }

  predicate AllSorted(rows: ShiftRows) {
    forall i | 0 <= i < |rows| :: SortedKeys(rows[i].1)
  }

  function ShiftKeys(rows: ShiftRows): (keys: seq<string>)
    ensures |keys| == |rows|
  {
    if |rows| == 0 then [] else [rows[0].0] + ShiftKeys(rows[1..])
  }

  predicate Distinct(s: seq<string>) {
    forall i, j | 0 <= i < j < |s| :: s[i] != s[j]
  }

  /** Every object key occurs once: shift names are distinct and picker indices ascend. */
  predicate WellFormedRows(rows: ShiftRows) {
    Distinct(ShiftKeys(rows)) && AllSorted(rows)
  }

  predicate WellFormed(sel: Selection) {
    forall d | d in sel :: WellFormedRows(sel[d])
  }

  function PickerGet(row: PickerRow, k: nat): Option<Choice> {
    if |row| == 0 then None else if row[0].0 == k then Some(row[0].1) else PickerGet(row[1..], k)
  }

  function ShiftGet(rows: ShiftRows, s: string): Option<PickerRow> {
    if |rows| == 0 then None else if rows[0].0 == s then Some(rows[0].1) else ShiftGet(rows[1..], s)
  }

  /** `prevSelected[day]?.[timeOfDay] || {}`. */
  function RowOf(rows: ShiftRows, s: string): PickerRow {
    match ShiftGet(rows, s)
    case None => []
    case Some(row) => row
  }

  /** `prevSelected[day] || {}`. */
  function DayOf(sel: Selection, day: string): ShiftRows {
    if day in sel then sel[day] else []
  }

  /** `selectedEmployees[day]?.[timeOfDay]?.[index]`: None when the path is missing. */
  function CellValue(sel: Selection, day: string, timeOfDay: string, k: nat): Option<Choice> {
    match ShiftGet(DayOf(sel, day), timeOfDay)
    case None => None
    case Some(row) => PickerGet(row, k)
  }

  /** `{...row, [k]: v}` on an integer-keyed object: overwrite the entry or insert it in
      index order. */
  function SetPicker(row: PickerRow, k: nat, v: Choice): (r: PickerRow)
    ensures |r| > 0 && (r[0].0 == k || (|row| > 0 && r[0].0 == row[0].0))
    ensures SortedKeys(row) ==> SortedKeys(r)
  {
    if |row| == 0 then [(k, v)]
    else if k < row[0].0 then [(k, v)] + row
    else if k == row[0].0 then [(k, v)] + row[1..]
    else [row[0]] + SetPicker(row[1..], k, v)
  }

  /** `{...rows, [s]: {...rows[s], [k]: v}}` on a string-keyed object: an existing shift
      keeps its place, a new one is appended. */
  function SetShift(rows: ShiftRows, s: string, k: nat, v: Choice): (r: ShiftRows)
    ensures |r| == if s in ShiftKeys(rows) then |rows| else |rows| + 1
    ensures s in ShiftKeys(r)
  {
    if |rows| == 0 then [(s, SetPicker([], k, v))]
    else if rows[0].0 == s then [(s, SetPicker(rows[0].1, k, v))] + rows[1..]
    else [rows[0]] + SetShift(rows[1..], s, k, v)
  }

  /** `handleEmployeeChange(day, timeOfDay, pickerIndex, employeeId)`. */
  function HandleEmployeeChange(sel: Selection, day: string, timeOfDay: string, pickerIndex: nat, employeeId: Choice): (r: Selection)
    ensures r.Keys == sel.Keys + {day}
    ensures forall d | d in sel && d != day :: r[d] == sel[d]
  {
    sel[day := SetShift(DayOf(sel, day), timeOfDay, pickerIndex, employeeId)]
  }

  lemma {:induction false} PickerGetSet(row: PickerRow, k: nat, v: Choice, k2: nat)
    ensures PickerGet(SetPicker(row, k, v), k2) == if k2 == k then Some(v) else PickerGet(row, k2)
  {
    if |row| > 0 && k > row[0].0 {
      PickerGetSet(row[1..], k, v, k2);
    }
  }

  lemma {:induction false} ShiftGetSet(rows: ShiftRows, s: string, k: nat, v: Choice, s2: string)
    ensures ShiftGet(SetShift(rows, s, k, v), s2) ==
      if s2 == s then Some(SetPicker(RowOf(rows, s), k, v)) else ShiftGet(rows, s2)
  {
    if |rows| > 0 && rows[0].0 != s {
      ShiftGetSet(rows[1..], s, k, v, s2);
    }
  }

  /** The changed cell holds the new value; every other day, shift and picker index is
      read as before. */
  lemma CellAfterChange(sel: Selection, day: string, timeOfDay: string, k: nat, v: Choice,
                        day2: string, timeOfDay2: string, k2: nat)
    ensures CellValue(HandleEmployeeChange(sel, day, timeOfDay, k, v), day2, timeOfDay2, k2) ==
      if day2 == day && timeOfDay2 == timeOfDay && k2 == k then Some(v)
      else CellValue(sel, day2, timeOfDay2, k2)
  {
    var rows := DayOf(sel, day);
    ShiftGetSet(rows, timeOfDay, k, v, timeOfDay2);
    if day2 == day && timeOfDay2 == timeOfDay {
      PickerGetSet(RowOf(rows, timeOfDay), k, v, k2);
    }
  }

  lemma {:induction false} SetPickerOverwrite(row: PickerRow, k: nat, v: Choice, w: Choice)
    ensures SetPicker(SetPicker(row, k, v), k, w) == SetPicker(row, k, w)
  {
    if |row| > 0 && k > row[0].0 {
      SetPickerOverwrite(row[1..], k, v, w);
    }
  }

  lemma {:induction false} SetShiftOverwrite(rows: ShiftRows, s: string, k: nat, v: Choice, w: Choice)
    ensures SetShift(SetShift(rows, s, k, v), s, k, w) == SetShift(rows, s, k, w)
  {
    if |rows| == 0 {
      SetPickerOverwrite([], k, v, w);
    } else if rows[0].0 == s {
      SetPickerOverwrite(rows[0].1, k, v, w);
    } else {
      SetShiftOverwrite(rows[1..], s, k, v, w);
    }
  }

  /** A later change to the same cell replaces the earlier one entirely. */
  lemma ChangeOverwrites(sel: Selection, day: string, timeOfDay: string, k: nat, v: Choice, w: Choice)
    ensures HandleEmployeeChange(HandleEmployeeChange(sel, day, timeOfDay, k, v), day, timeOfDay, k, w) ==
            HandleEmployeeChange(sel, day, timeOfDay, k, w)
  {
    SetShiftOverwrite(DayOf(sel, day), timeOfDay, k, v, w);
  }

  /** Making the same change twice is the same as making it once. */
  lemma ChangeIdempotent(sel: Selection, day: string, timeOfDay: string, k: nat, v: Choice)
    ensures HandleEmployeeChange(HandleEmployeeChange(sel, day, timeOfDay, k, v), day, timeOfDay, k, v) ==
            HandleEmployeeChange(sel, day, timeOfDay, k, v)
  {
    ChangeOverwrites(sel, day, timeOfDay, k, v, v);
  }

  /** Shift keys keep their insertion order; a new shift goes last. */
  lemma {:induction false} SetShiftKeys(rows: ShiftRows, s: string, k: nat, v: Choice)
    ensures ShiftKeys(SetShift(rows, s, k, v)) ==
      if s in ShiftKeys(rows) then ShiftKeys(rows) else ShiftKeys(rows) + [s]
  {
    if |rows| > 0 && rows[0].0 != s {
      SetShiftKeys(rows[1..], s, k, v);
      assert ShiftKeys(rows) == [rows[0].0] + ShiftKeys(rows[1..]);
    }
  }

  lemma {:induction false} SetShiftSorted(rows: ShiftRows, s: string, k: nat, v: Choice)
    requires AllSorted(rows)
    ensures AllSorted(SetShift(rows, s, k, v))
  {
    var r := SetShift(rows, s, k, v);
    if |rows| > 0 && rows[0].0 != s {
      SetShiftSorted(rows[1..], s, k, v);
      var rest := SetShift(rows[1..], s, k, v);
      assert r == [rows[0]] + rest;
      forall i | 0 <= i < |r| ensures SortedKeys(r[i].1) {
        if i == 0 {
          assert r[0] == rows[0];
        } else {
          assert r[i] == rest[i - 1];
        }
      }
    } else if |rows| > 0 {
      assert forall i | 1 <= i < |r| :: r[i] == rows[i];
    }
  }

  /** Every cell keeps holding at most one employee: the object shape is preserved. */
  lemma ChangeKeepsWellFormed(sel: Selection, day: string, timeOfDay: string, k: nat, v: Choice)
    requires WellFormed(sel)
    ensures WellFormed(HandleEmployeeChange(sel, day, timeOfDay, k, v))
  {
    var rows := DayOf(sel, day);
    SetShiftKeys(rows, timeOfDay, k, v);
    SetShiftSorted(rows, timeOfDay, k, v);
  }

  /** The value shown by a picker, `selectedEmployees[day]?.[timeOfDay]?.[index] || ''`. */
  function PickerValue(sel: Selection, day: string, timeOfDay: string, k: nat): (c: Choice)
    ensures IsChosen(c) <==> CellValue(sel, day, timeOfDay, k).Some? && IsChosen(CellValue(sel, day, timeOfDay, k).value)
    ensures !IsChosen(c) ==> c == Placeholder
  {
    match CellValue(sel, day, timeOfDay, k)
    case Some(c) => if IsChosen(c) then c else Placeholder
    case None => Placeholder
  }

  /** After a change the picker shows the chosen employee, or the placeholder for a falsy value. */
  lemma PickerShowsChange(sel: Selection, day: string, timeOfDay: string, k: nat, v: Choice)
    ensures PickerValue(HandleEmployeeChange(sel, day, timeOfDay, k, v), day, timeOfDay, k) ==
      if IsChosen(v) then v else Placeholder
  {
    CellAfterChange(sel, day, timeOfDay, k, v, day, timeOfDay, k);
  }

  // ---------------------------------------------------------------------------------
  // Rendering: which pickers exist

  /** `renderDay`: Friday shows the morning shift only, other days all three. */
  function DayShifts(day: string): (r: seq<string>)
    ensures |r| > 0 && r[0] == Morning
    ensures |r| == 1 <==> day == Friday
  {
    if day == HebrewDays[5] then [Morning] else [Morning, Afternoon, Evening]
  }

  /** `renderPickerForShift` for each shift of the day: pickers 1, 2 and 3. */
  function PickerSlots(shifts: seq<string>): (r: seq<(string, nat)>)
    ensures |r| == 3 * |shifts|
    ensures forall i | 0 <= i < |r| :: r[i] == (shifts[i / 3], i % 3 + 1)
  {
    if |shifts| == 0 then []
    else
      var rest := PickerSlots(shifts[1..]);
      var r := [(shifts[0], 1), (shifts[0], 2), (shifts[0], 3)] + rest;
      forall i | 3 <= i < |r|
        ensures r[i] == (shifts[i / 3], i % 3 + 1)
      {
        SlotOfShifted(i);
        assert r[i] == rest[i - 3];
      }
      r
  }

  /** Moving one shift's three pickers along moves the slot's shift by one. */
  lemma SlotOfShifted(i: int)
    requires 3 <= i
    ensures (i - 3) / 3 == i / 3 - 1 && (i - 3) % 3 == i % 3
  {
  }

  lemma {:induction false} PickerSlotsMembers(shifts: seq<string>, s: string, k: nat)
    ensures (s, k) in PickerSlots(shifts) <==> s in shifts && 1 <= k <= 3
  {
    if |shifts| > 0 {
      PickerSlotsMembers(shifts[1..], s, k);
      assert s in shifts <==> s == shifts[0] || s in shifts[1..];
    }
  }

  /** A day offers picker `k` of shift `s` iff `k` is 1, 2 or 3 and `s` is the morning
      shift, or the afternoon or evening shift on a day other than Friday. */
  lemma DaySlots(day: string, s: string, k: nat)
    ensures (s, k) in PickerSlots(DayShifts(day)) <==>
      1 <= k <= 3 && (s == Morning || (day != Friday && (s == Afternoon || s == Evening)))
  {
    PickerSlotsMembers(DayShifts(day), s, k);
  }

  /** The days shown (`hebrewDays.slice(0, -1)`): Sunday to Friday. */
  function RenderedDays(): (days: seq<string>)
    ensures |days| == 6 && days == HebrewDays[..6] && days[5] == Friday
  {
    HebrewDays[..|HebrewDays| - 1]
  }

  // ---------------------------------------------------------------------------------
  // The week

  datatype WeekDay = WeekDay(day: string, date: string, isFriday: bool)

  function WeekDayAt(startOfWeek: int, i: nat): WeekDay
    requires i < 7
  {
    WeekDay(HebrewDays[i], FormatDM(CivilFromDays(startOfWeek + i)), i == 5)
  }

  /** `getWeekDates(week)`: Sunday to Friday of the week of `week`, labelled 'DD/MM'. */
  method GetWeekDates(week: int) returns (weekDates: seq<WeekDay>)
    ensures |weekDates| == 6
    ensures forall i | 0 <= i < 6 ::
      weekDates[i] == WeekDay(HebrewDays[i], FormatDM(CivilFromDays(StartOfWeek(week) + i)), i == 5)
  {
    var startOfWeek := StartOfWeek(week);
    weekDates := [];
    for i := 0 to 6
      invariant |weekDates| == i
      invariant forall j | 0 <= j < i :: weekDates[j] == WeekDayAt(startOfWeek, j)
    {
      var isFriday := HebrewDays[i] == Friday;
      FridayIsDayFive(i);
      assert isFriday == (i == 5);
      weekDates := weekDates + [WeekDay(HebrewDays[i], FormatDM(CivilFromDays(startOfWeek + i)), isFriday)];
    }
  }

  datatype Boundaries = Boundaries(startOfWeek: string, endOfWeek: string)

  /** `getWeekBoundaries(week)`: the Sunday and the Saturday of the week, each formatted
      ' DD/MM/YY' with a leading space. */
  function GetWeekBoundaries(week: int): (b: Boundaries)
    ensures |b.startOfWeek| > 0 && b.startOfWeek[0] == ' '
    ensures |b.endOfWeek| > 0 && b.endOfWeek[0] == ' '
    ensures b == BoundariesFrom(StartOfWeek(week))
  {
    BoundariesFrom(StartOfWeek(week))
  }

  /** The boundaries of the week that starts on day `s`. */
  function BoundariesFrom(s: int): (b: Boundaries)
    ensures |b.startOfWeek| == 9 && b.startOfWeek[0] == ' ' && b.startOfWeek[3] == '/' && b.startOfWeek[6] == '/'
    ensures |b.endOfWeek| == 9 && b.endOfWeek[0] == ' ' && b.endOfWeek[3] == '/' && b.endOfWeek[6] == '/'
  {
    Boundaries(" " + DateString(s), " " + DateString(s + 6))
  }

  /** From year 0 on, the two boundaries of a week are different strings. */
  lemma BoundariesDiffer(s: int)
    requires EraZeroStart <= s
    ensures BoundariesFrom(s).startOfWeek != BoundariesFrom(s).endOfWeek
  {
    var b := BoundariesFrom(s);
    DateStringsDiffer(s, s + 6);
    assert b.startOfWeek[1..] == DateString(s) && b.endOfWeek[1..] == DateString(s + 6);
  }

  /** Every day of a week has the same boundaries. */
  lemma BoundariesOfWeek(week: int, i: int)
    requires 0 <= i < 7
    ensures GetWeekBoundaries(StartOfWeek(week) + i) == GetWeekBoundaries(week)
  {
    SameWeek(StartOfWeek(week), i);
  }

  datatype Direction = Prev | Next | Other

  /** `changeWeek(direction)`: one week back, one week on, or stay. */
  function ChangeWeek(week: int, direction: Direction): (w: int)
    ensures StartOfWeek(w) == StartOfWeek(week) + (if direction == Next then 7 else if direction == Prev then -7 else 0)
  {
    match direction
    case Prev => StartOfWeekShift(week, -1); week - 7
    case Next => StartOfWeekShift(week, 1); week + 7
    case Other => week
  }

  /** Paging forward and then back shows the original week again. */
  lemma NextThenPrev(week: int)
    ensures GetWeekBoundaries(ChangeWeek(ChangeWeek(week, Next), Prev)) == GetWeekBoundaries(week)
    ensures ChangeWeek(ChangeWeek(week, Prev), Next) == week
  {
    var back := ChangeWeek(ChangeWeek(week, Next), Prev);
    assert back == week;
  }

  datatype RangeQuery = MissingDates | NotBefore | SendRange(startDate: string, endDate: string)

  /** The checks before `sendShiftRangeQuery` posts: both dates non-empty, and the start
      strictly before the end. The date comparison (through `new Date`) is the parameter
      `startNotBeforeEnd`. */
  function SendShiftRangeQuery(startDate: string, endDate: string, startNotBeforeEnd: bool): (r: RangeQuery)
    ensures r.MissingDates? <==> startDate == [] || endDate == []
    ensures r.NotBefore? <==> startDate != [] && endDate != [] && startNotBeforeEnd
    ensures r.SendRange? ==> r == SendRange(startDate, endDate)
  {
    if startDate == [] || endDate == [] then MissingDates
    else if startNotBeforeEnd then NotBefore
    else SendRange(startDate, endDate)
  }

  /** The boundary strings are never empty, so the range query is never refused for that. */
  lemma BoundariesNeverMissing(week: int, startNotBeforeEnd: bool)
    ensures var b := GetWeekBoundaries(week);
      !SendShiftRangeQuery(b.startOfWeek, b.endOfWeek, startNotBeforeEnd).MissingDates?
  {
  }

  // ---------------------------------------------------------------------------------
  // Save and share: flattening the selection

  datatype Employee = Employee(id: int, firstName: string, lastName: string)

  /** `[index, firstName, lastName, timeOfDay, date]`; `index` is the picker index. */
  datatype ShiftTuple = ShiftTuple(index: nat, firstName: string, lastName: string, timeOfDay: string, date: string)

  /** `employeeData.find(emp => emp.id === employeeId)`: the first employee with that id. */
  function FindEmployee(employees: seq<Employee>, id: int): (r: Option<Employee>)
    ensures r.Some? ==> r.value in employees && r.value.id == id
    ensures r.None? <==> forall e | e in employees :: e.id != id
    ensures forall i | 0 <= i < |employees| && employees[i].id == id && forall j | 0 <= j < i :: employees[j].id != id ::
      r == Some(employees[i])
  {
    if |employees| == 0 then None
    else if employees[0].id == id then Some(employees[0])
    else
      var tail := employees[1..];
      assert forall i | 1 <= i < |employees| :: employees[i] == tail[i - 1];
      assert forall i | 0 <= i < |employees| && employees[i].id == id && forall j | 0 <= j < i :: employees[j].id != id ::
        1 <= i && tail[i - 1].id == id && forall j | 0 <= j < i - 1 :: tail[j].id != id;
      FindEmployee(tail, id)
  }

  /** The employee's full name, as `${firstName} ${lastName}`; when the last name has no
      space, splitting it gives the last name back. */
  function FullName(e: Employee): (n: string)
    ensures ' ' !in e.lastName ==> SplitName(n).1 == e.lastName
    ensures |n| == |e.firstName| + 1 + |e.lastName|
  {
    SplitNameRejoins(e.firstName, e.lastName);
    e.firstName + " " + e.lastName
  }

  /** `fullName.split(' ')`, then `pop()` for the last name and `join(' ')` for the rest. */
  function SplitName(fullName: string): (r: (string, string))
    ensures ' ' !in r.1
  {
    var parts := Split(fullName, ' ');
    assert parts[|parts| - 1] == Split(fullName, ' ')[|parts| - 1];
    (Join(parts[..|parts| - 1], " "), parts[|parts| - 1])
  }

  /** The last name is the last space-separated token, and first + " " + last gives the full
      name back; a last name without spaces comes back unchanged. */
  lemma SplitNameRejoins(first: string, last: string)
    ensures var r := SplitName(first + " " + last);
      r.0 + " " + r.1 == first + " " + last && ' ' !in r.1 &&
      (' ' !in last ==> r == (Join(Split(first, ' '), " "), last))
  {
    var s := first + " " + last;
    SplitConcat(first, ' ', last);
    SplitNameOfPieces(s);
    if ' ' !in last {
      SplitNoSeparator(last, ' ');
      var parts := Split(s, ' ');
      assert parts == Split(first, ' ') + [last];
      assert parts[..|parts| - 1] == Split(first, ' ');
    }
  }

  /** With at least one space, the two halves of SplitName rejoin to the string. */
  lemma SplitNameOfPieces(s: string)
    requires |Split(s, ' ')| >= 2
    ensures SplitName(s).0 + " " + SplitName(s).1 == s
  {
    var parts := Split(s, ' ');
    var n := |parts|;
    assert parts == parts[..n - 1] + [parts[n - 1]];
    JoinSnoc(parts[..n - 1], parts[n - 1], " ");
    JoinSplit(s, ' ');
  }

  /** A first name without spaces is recovered too. */
  lemma SplitSimpleName(first: string, last: string)
    requires ' ' !in first && ' ' !in last
    ensures SplitName(first + " " + last) == (first, last)
  {
    SplitNameRejoins(first, last);
    SplitNoSeparator(first, ' ');
  }

  /** A picker's value is truthy and names an employee of the list. */
  predicate Found(c: Choice, employees: seq<Employee>) {
    IsChosen(c) && FindEmployee(employees, c.id).Some?
  }

  /** The tuple saved for picker `k` of shift `s` on day `dayIndex` chosen as employee `e`:
      the picker index, the split full name, the shift and the 'DD/MM/YY' date. */
  function CellTuple(k: nat, e: Employee, s: string, dayIndex: nat, week: int): (t: ShiftTuple)
    ensures t.index == k && t.timeOfDay == s && t.date == DateString(StartOfWeek(week) + dayIndex)
    ensures t.firstName + " " + t.lastName == FullName(e) && ' ' !in t.lastName
  {
    SplitNameRejoins(e.firstName, e.lastName);
    var name := SplitName(FullName(e));
    ShiftTuple(k, name.0, name.1, s, DateString(StartOfWeek(week) + dayIndex))
  }

  /** The tuples one picker contributes: one when its value is truthy and names an
      employee, none otherwise. */
  function CellTuples(index: nat, employeeId: Choice, timeOfDay: string, dayIndex: nat, week: int, employees: seq<Employee>): (ts: seq<ShiftTuple>)
    ensures |ts| <= 1 && (|ts| == 1 <==> Found(employeeId, employees))
  {
    if Found(employeeId, employees) then [CellTuple(index, FindEmployee(employees, employeeId.id).value, timeOfDay, dayIndex, week)]
    else []
  }

  /** The tuples of one shift's pickers, in picker order. */
  function RowTuples(row: PickerRow, timeOfDay: string, dayIndex: nat, week: int, employees: seq<Employee>): (ts: seq<ShiftTuple>)
    ensures |ts| <= |row|
    ensures |ts| > 0 ==> RowHas(row)
  {
    if |row| == 0 then []
    else
      var last := row[|row| - 1];
      RowTuples(row[..|row| - 1], timeOfDay, dayIndex, week, employees) + CellTuples(last.0, last.1, timeOfDay, dayIndex, week, employees)
  }

  /** The tuples of one day's shifts, in shift order. */
  function DayTuples(rows: ShiftRows, dayIndex: nat, week: int, employees: seq<Employee>): (ts: seq<ShiftTuple>)
    ensures |ts| > 0 ==> DayHas(rows)
  {
    if |rows| == 0 then []
    else
      var last := rows[|rows| - 1];
      DayTuples(rows[..|rows| - 1], dayIndex, week, employees) + RowTuples(last.1, last.0, dayIndex, week, employees)
  }

  /** The tuples of the week days named `days` (day `i` is `i` days after the week start),
      in scan order; there are some only if the week has a selection. */
  function WeekTuples(days: seq<string>, sel: Selection, week: int, employees: seq<Employee>): (ts: seq<ShiftTuple>)
    ensures |ts| > 0 ==> WeekHas(days, sel)
  {
    if |days| == 0 then []
    else
      var n := |days| - 1;
      WeekTuples(days[..n], sel, week, employees) + DayTuples(DayOf(sel, days[n]), n, week, employees)
  }

  predicate RowHas(row: PickerRow) {
    |row| > 0 && (RowHas(row[..|row| - 1]) || IsChosen(row[|row| - 1].1))
  }

  predicate DayHas(rows: ShiftRows) {
    |rows| > 0 && (DayHas(rows[..|rows| - 1]) || RowHas(rows[|rows| - 1].1))
  }

  predicate WeekHas(days: seq<string>, sel: Selection) {
    |days| > 0 && (WeekHas(days[..|days| - 1], sel) || DayHas(DayOf(sel, days[|days| - 1])))
  }

  lemma {:induction false} RowHasMeaning(row: PickerRow)
    ensures RowHas(row) <==> exists i | 0 <= i < |row| :: IsChosen(row[i].1)
  {
    if |row| > 0 {
      var p := row[..|row| - 1];
      RowHasMeaning(p);
      assert forall i | 0 <= i < |p| :: p[i] == row[i];
    }
  }

  lemma {:induction false} DayHasMeaning(rows: ShiftRows)
    ensures DayHas(rows) <==> exists i | 0 <= i < |rows| :: RowHas(rows[i].1)
  {
    if |rows| > 0 {
      var p := rows[..|rows| - 1];
      DayHasMeaning(p);
      assert forall i | 0 <= i < |p| :: p[i] == rows[i];
    }
  }

  lemma {:induction false} WeekHasMeaning(days: seq<string>, sel: Selection)
    ensures WeekHas(days, sel) <==> exists d | 0 <= d < |days| :: DayHas(DayOf(sel, days[d]))
  {
    if |days| > 0 {
      var p := days[..|days| - 1];
      WeekHasMeaning(p, sel);
      assert forall d | 0 <= d < |p| :: p[d] == days[d];
    }
  }

  /** The innermost `forEach` of `handleSaveAndShare`, over the pickers of one shift. */
  method CollectRow(employeesRow: PickerRow, timeOfDay: string, dayIndex: nat, week: int, employees: seq<Employee>)
    returns (tuples: seq<ShiftTuple>, found: bool)
    ensures tuples == RowTuples(employeesRow, timeOfDay, dayIndex, week, employees)
    ensures found == RowHas(employeesRow)
  {
    tuples := [];
    found := false;
    for k := 0 to |employeesRow|
      invariant tuples == RowTuples(employeesRow[..k], timeOfDay, dayIndex, week, employees)
      invariant found == RowHas(employeesRow[..k])
    {
      var index := employeesRow[k].0;
      var employeeId := employeesRow[k].1;
      if IsChosen(employeeId) {
        found := true;
        var employee := FindEmployee(employees, employeeId.id);
        if employee.Some? {
          var name := SplitName(FullName(employee.value));
          var date := DateString(StartOfWeek(week) + dayIndex);
          tuples := tuples + [ShiftTuple(index, name.0, name.1, timeOfDay, date)];
        }
      }
      assert employeesRow[..k + 1][..k] == employeesRow[..k];
    }
    assert employeesRow[..|employeesRow|] == employeesRow;
  }

  /** The middle `forEach`, over `Object.entries(selectedEmployees[day.day] || {})`. */
  method CollectDay(rows: ShiftRows, dayIndex: nat, week: int, employees: seq<Employee>)
    returns (tuples: seq<ShiftTuple>, found: bool)
    ensures tuples == DayTuples(rows, dayIndex, week, employees)
    ensures found == DayHas(rows)
  {
    tuples := [];
    found := false;
    for j := 0 to |rows|
      invariant tuples == DayTuples(rows[..j], dayIndex, week, employees)
      invariant found == DayHas(rows[..j])
    {
      var rowTuples, rowFound := CollectRow(rows[j].1, rows[j].0, dayIndex, week, employees);
      tuples := tuples + rowTuples;
      found := found || rowFound;
      assert rows[..j + 1][..j] == rows[..j];
    }
    assert rows[..|rows|] == rows;
  }

  /** `handleSaveAndShare`'s scan of the six week days: the tuples of the truthy selections
      whose id is found, and `hasEmployees`, which turns true at any truthy selection, found
      or not. */
  method CollectSelections(days: seq<string>, sel: Selection, employees: seq<Employee>, week: int)
    returns (allSelectedData: seq<ShiftTuple>, hasEmployees: bool)
    ensures allSelectedData == WeekTuples(days, sel, week, employees)
    ensures hasEmployees == WeekHas(days, sel)
  {
    allSelectedData := [];
    hasEmployees := false;
    for dayIndex := 0 to |days|
      invariant allSelectedData == WeekTuples(days[..dayIndex], sel, week, employees)
      invariant hasEmployees == WeekHas(days[..dayIndex], sel)
    {
      var dayTuples, dayFound := CollectDay(DayOf(sel, days[dayIndex]), dayIndex, week, employees);
      allSelectedData := allSelectedData + dayTuples;
      hasEmployees := hasEmployees || dayFound;
      assert days[..dayIndex + 1][..dayIndex] == days[..dayIndex];
    }
    assert days[..|days|] == days;
  }

  datatype Effect =
    | DeleteRange(startDate: string, endDate: string)
    | Alert(title: string, message: string)
    | AssignShifts(data: seq<ShiftTuple>)
    | GeneratePdf(startDate: string, data: seq<ShiftTuple>)

  /** `handleSaveAndShare`, as the requests and dialogs it issues in order. The range
      delete is awaited first, whatever is selected; if it throws (`deleteThrows`) nothing
      else happens. With no truthy selection it alerts; otherwise it sends the tuples and
      prints them from the ' DD/MM/YY' week start. */
  method HandleSaveAndShare(week: int, sel: Selection, employees: seq<Employee>, deleteThrows: bool) returns (effects: seq<Effect>)
    ensures var b := GetWeekBoundaries(week);
      |effects| >= 1 && effects[0] == DeleteRange(b.startOfWeek, b.endOfWeek)
    ensures deleteThrows ==> |effects| == 1
    ensures !deleteThrows && !WeekHas(HebrewDays[..6], sel) ==>
      effects[1..] == [Alert("שגיאה", "לא בחרת עובדות למשמרות")]
    ensures !deleteThrows && WeekHas(HebrewDays[..6], sel) ==>
      var data := WeekTuples(HebrewDays[..6], sel, week, employees);
      effects[1..] == [AssignShifts(data), GeneratePdf(GetWeekBoundaries(week).startOfWeek, data)]
  {
    var b := GetWeekBoundaries(week);
    effects := [DeleteRange(b.startOfWeek, b.endOfWeek)];
    if deleteThrows {
      return;
    }
    var weekDates := GetWeekDates(week);
    var days := seq(|weekDates|, i requires 0 <= i < |weekDates| => weekDates[i].day);
    assert days == HebrewDays[..6];
    var allSelectedData, hasEmployees := CollectSelections(days, sel, employees, week);
    if !hasEmployees {
      effects := effects + [Alert("שגיאה", "לא בחרת עובדות למשמרות")];
      return;
    }
    effects := effects + [AssignShifts(allSelectedData), GeneratePdf(b.startOfWeek, allSelectedData)];
  }

  // ---------------------------------------------------------------------------------
  // What the scan saves: exactly one tuple per truthy picker whose id is found

  /** `t` is the tuple saved for picker `k` of shift `s` holding `c`: `c` is truthy and
      names an employee, and `t` is that picker's tuple for the first such employee. */
  predicate CellPicks(k: nat, c: Choice, s: string, dayIndex: nat, week: int, employees: seq<Employee>, t: ShiftTuple) {
    Found(c, employees) && t == CellTuple(k, FindEmployee(employees, c.id).value, s, dayIndex, week)
  }

  /** `t` is the tuple of a truthy, found picker of the row. */
  predicate RowPicks(row: PickerRow, s: string, dayIndex: nat, week: int, employees: seq<Employee>, t: ShiftTuple) {
    exists j | 0 <= j < |row| :: CellPicks(row[j].0, row[j].1, s, dayIndex, week, employees, t)
  }

  /** `t` is the tuple of a truthy, found picker of one of the day's shifts. */
  predicate DayPicks(rows: ShiftRows, dayIndex: nat, week: int, employees: seq<Employee>, t: ShiftTuple) {
    exists i | 0 <= i < |rows| :: RowPicks(rows[i].1, rows[i].0, dayIndex, week, employees, t)
  }

  /** `t` is the tuple of a truthy, found picker of one of the listed days. */
  predicate WeekPicks(days: seq<string>, sel: Selection, week: int, employees: seq<Employee>, t: ShiftTuple) {
    exists d | 0 <= d < |days| :: DayPicks(DayOf(sel, days[d]), d, week, employees, t)
  }

  lemma CellTuplesExact(k: nat, c: Choice, s: string, dayIndex: nat, week: int, employees: seq<Employee>, t: ShiftTuple)
    ensures t in CellTuples(k, c, s, dayIndex, week, employees) <==> CellPicks(k, c, s, dayIndex, week, employees, t)
  {
  }

  /** Some index below `m` satisfies `p`. */
  predicate AnyBelow(m: nat, p: nat -> bool) {
    exists j | 0 <= j < m :: p(j)
  }

  lemma AnyBelowStep(m: nat, p: nat -> bool)
    requires m > 0
    ensures AnyBelow(m, p) <==> AnyBelow(m - 1, p) || p(m - 1)
  {
    if AnyBelow(m, p) && !p(m - 1) {
      var j :| 0 <= j < m && p(j);
      assert j < m - 1;
    }
  }

  /** Which pickers of the row pick `t`. */
  function RowCell(row: PickerRow, s: string, dayIndex: nat, week: int, employees: seq<Employee>, t: ShiftTuple): nat -> bool {
    (j: nat) => j < |row| && CellPicks(row[j].0, row[j].1, s, dayIndex, week, employees, t)
  }

  /** Which shifts of the day pick `t`. */
  function DayCell(rows: ShiftRows, dayIndex: nat, week: int, employees: seq<Employee>, t: ShiftTuple): nat -> bool {
    (i: nat) => i < |rows| && RowPicks(rows[i].1, rows[i].0, dayIndex, week, employees, t)
  }

  /** Which listed days pick `t`. */
  function WeekCell(days: seq<string>, sel: Selection, week: int, employees: seq<Employee>, t: ShiftTuple): nat -> bool {
    (d: nat) => d < |days| && DayPicks(DayOf(sel, days[d]), d, week, employees, t)
  }

  /** The tuples saved from the first `m` pickers of a row are those the first `m` pick. */
  lemma {:induction false} RowTuplesUpTo(row: PickerRow, m: nat, s: string, dayIndex: nat, week: int, employees: seq<Employee>, t: ShiftTuple)
    requires m <= |row|
    ensures t in RowTuples(row[..m], s, dayIndex, week, employees) <==>
      AnyBelow(m, RowCell(row, s, dayIndex, week, employees, t))
  {
    if m > 0 {
      assert row[..m][..m - 1] == row[..m - 1];
      RowTuplesUpTo(row, m - 1, s, dayIndex, week, employees, t);
      CellTuplesExact(row[m - 1].0, row[m - 1].1, s, dayIndex, week, employees, t);
      AnyBelowStep(m, RowCell(row, s, dayIndex, week, employees, t));
    }
  }

  lemma RowTuplesExact(row: PickerRow, s: string, dayIndex: nat, week: int, employees: seq<Employee>, t: ShiftTuple)
    ensures t in RowTuples(row, s, dayIndex, week, employees) <==> RowPicks(row, s, dayIndex, week, employees, t)
  {
    RowTuplesUpTo(row, |row|, s, dayIndex, week, employees, t);
    assert row[..|row|] == row;
    var p := RowCell(row, s, dayIndex, week, employees, t);
    if RowPicks(row, s, dayIndex, week, employees, t) {
      var j :| 0 <= j < |row| && CellPicks(row[j].0, row[j].1, s, dayIndex, week, employees, t);
      assert p(j);
    }
    if AnyBelow(|row|, p) {
      var j :| 0 <= j < |row| && p(j);
      assert CellPicks(row[j].0, row[j].1, s, dayIndex, week, employees, t);
    }
  }


  /** The tuples saved from the first `m` shifts of a day are those their rows pick. */
  lemma {:induction false} DayTuplesUpTo(rows: ShiftRows, m: nat, dayIndex: nat, week: int, employees: seq<Employee>, t: ShiftTuple)
    requires m <= |rows|
    ensures t in DayTuples(rows[..m], dayIndex, week, employees) <==>
      AnyBelow(m, DayCell(rows, dayIndex, week, employees, t))
  {
    if m > 0 {
      assert rows[..m][..m - 1] == rows[..m - 1];
      DayTuplesUpTo(rows, m - 1, dayIndex, week, employees, t);
      RowTuplesExact(rows[m - 1].1, rows[m - 1].0, dayIndex, week, employees, t);
      AnyBelowStep(m, DayCell(rows, dayIndex, week, employees, t));
    }
  }

  lemma DayTuplesExact(rows: ShiftRows, dayIndex: nat, week: int, employees: seq<Employee>, t: ShiftTuple)
    ensures t in DayTuples(rows, dayIndex, week, employees) <==> DayPicks(rows, dayIndex, week, employees, t)
  {
    DayTuplesUpTo(rows, |rows|, dayIndex, week, employees, t);
    assert rows[..|rows|] == rows;
    var p := DayCell(rows, dayIndex, week, employees, t);
    if DayPicks(rows, dayIndex, week, employees, t) {
      var i :| 0 <= i < |rows| && RowPicks(rows[i].1, rows[i].0, dayIndex, week, employees, t);
      assert p(i);
    }
    if AnyBelow(|rows|, p) {
      var i :| 0 <= i < |rows| && p(i);
      assert RowPicks(rows[i].1, rows[i].0, dayIndex, week, employees, t);
    }
  }


  /** The tuples saved from the first `m` listed days are those their shifts pick. */
  lemma {:induction false} WeekTuplesUpTo(days: seq<string>, m: nat, sel: Selection, week: int, employees: seq<Employee>, t: ShiftTuple)
    requires m <= |days|
    ensures t in WeekTuples(days[..m], sel, week, employees) <==>
      AnyBelow(m, WeekCell(days, sel, week, employees, t))
  {
    if m > 0 {
      assert days[..m][..m - 1] == days[..m - 1];
      WeekTuplesUpTo(days, m - 1, sel, week, employees, t);
      DayTuplesExact(DayOf(sel, days[m - 1]), m - 1, week, employees, t);
      AnyBelowStep(m, WeekCell(days, sel, week, employees, t));
    }
  }

  /** The saved tuples are exactly those of the truthy pickers of the listed days whose id
      names an employee: each carries its picker's index, its shift, its day's date and the
      split full name of the first employee with that id. */
  lemma WeekTuplesExact(days: seq<string>, sel: Selection, week: int, employees: seq<Employee>, t: ShiftTuple)
    ensures t in WeekTuples(days, sel, week, employees) <==> WeekPicks(days, sel, week, employees, t)
  {
    WeekTuplesUpTo(days, |days|, sel, week, employees, t);
    assert days[..|days|] == days;
    var p := WeekCell(days, sel, week, employees, t);
    if WeekPicks(days, sel, week, employees, t) {
      var d :| 0 <= d < |days| && DayPicks(DayOf(sel, days[d]), d, week, employees, t);
      assert p(d);
    }
    if AnyBelow(|days|, p) {
      var d :| 0 <= d < |days| && p(d);
      assert DayPicks(DayOf(sel, days[d]), d, week, employees, t);
    }
  }



  /** Every truthy picker of a listed day whose id is found is saved. */
  lemma PickedCellSaved(days: seq<string>, sel: Selection, week: int, employees: seq<Employee>,
                        d: nat, s: string, row: PickerRow, k: nat, c: Choice)
    requires d < |days| && (s, row) in DayOf(sel, days[d]) && (k, c) in row && Found(c, employees)
    ensures CellTuple(k, FindEmployee(employees, c.id).value, s, d, week) in WeekTuples(days, sel, week, employees)
  {
    var t := CellTuple(k, FindEmployee(employees, c.id).value, s, d, week);
    var rows := DayOf(sel, days[d]);
    var i :| 0 <= i < |rows| && rows[i] == (s, row);
    var j :| 0 <= j < |row| && row[j] == (k, c);
    assert CellPicks(row[j].0, row[j].1, s, d, week, employees, t);
    assert RowPicks(row, s, d, week, employees, t);
    assert DayPicks(rows, d, week, employees, t);
    assert WeekPicks(days, sel, week, employees, t);
    WeekTuplesExact(days, sel, week, employees, t);
  }

  // ---- Counting: one tuple per truthy, found picker ----

  /** The positions `j` of the row's truthy, found pickers. */
  function RowFound(row: PickerRow, employees: seq<Employee>): set<nat> {
    set j: nat | j < |row| && Found(row[j].1, employees)
  }

  /** The positions `(i, j)` (shift, picker) of the day's truthy, found pickers. */
  function DayFound(rows: ShiftRows, employees: seq<Employee>): set<(nat, nat)> {
    set i: nat, j | i < |rows| && j in RowFound(rows[i].1, employees) :: (i, j)
  }

  /** The positions `(d, (i, j))` (day, shift, picker) of the week's truthy, found pickers. */
  function WeekFound(days: seq<string>, sel: Selection, employees: seq<Employee>): set<(nat, (nat, nat))> {
    set d: nat, p | d < |days| && p in DayFound(DayOf(sel, days[d]), employees) :: (d, p)
  }

  /** The positions of `r` tagged with the outer position `n`. */
  function Tag<T>(n: nat, r: set<T>): set<(nat, T)> {
    set x | x in r :: (n, x)
  }

  lemma {:induction false} TagCount<T>(n: nat, r: set<T>)
    ensures |Tag(n, r)| == |r|
    decreases |r|
  {
    if r != {} {
      var x :| x in r;
      var rest := r - {x};
      TagCount(n, rest);
      assert Tag(n, r) == Tag(n, rest) + {(n, x)};
    }
  }

  /** The positions below `m` of the row's truthy, found pickers. */
  function RowFoundBelow(row: PickerRow, m: nat, employees: seq<Employee>): set<nat> {
    set j: nat | j < m && j < |row| && Found(row[j].1, employees)
  }

  /** The positions `(i, j)` of the day's truthy, found pickers with shift `i` below `m`. */
  function DayFoundBelow(rows: ShiftRows, m: nat, employees: seq<Employee>): set<(nat, nat)> {
    set i: nat, j | i < m && i < |rows| && j in RowFound(rows[i].1, employees) :: (i, j)
  }

  /** The positions `(d, p)` of the week's truthy, found pickers with day `d` below `m`. */
  function WeekFoundBelow(days: seq<string>, sel: Selection, m: nat, employees: seq<Employee>): set<(nat, (nat, nat))> {
    set d: nat, p | d < m && d < |days| && p in DayFound(DayOf(sel, days[d]), employees) :: (d, p)
  }

  lemma RowFoundStep(row: PickerRow, m: nat, employees: seq<Employee>)
    requires 0 < m <= |row|
    ensures RowFoundBelow(row, m, employees) ==
      RowFoundBelow(row, m - 1, employees) + (if Found(row[m - 1].1, employees) then {m - 1} else {})
    ensures m - 1 !in RowFoundBelow(row, m - 1, employees)
  {
  }

  lemma {:induction false} RowTuplesCountUpTo(row: PickerRow, m: nat, s: string, dayIndex: nat, week: int, employees: seq<Employee>)
    requires m <= |row|
    ensures |RowTuples(row[..m], s, dayIndex, week, employees)| == |RowFoundBelow(row, m, employees)|
  {
    if m > 0 {
      assert row[..m][..m - 1] == row[..m - 1];
      RowTuplesCountUpTo(row, m - 1, s, dayIndex, week, employees);
      RowFoundStep(row, m, employees);
    } else {
      assert RowFoundBelow(row, m, employees) == {};
    }
  }

  lemma RowTuplesCount(row: PickerRow, s: string, dayIndex: nat, week: int, employees: seq<Employee>)
    ensures |RowTuples(row, s, dayIndex, week, employees)| == |RowFound(row, employees)|
  {
    RowTuplesCountUpTo(row, |row|, s, dayIndex, week, employees);
    assert row[..|row|] == row;
    assert RowFoundBelow(row, |row|, employees) == RowFound(row, employees);
  }

  lemma DayFoundStep(rows: ShiftRows, m: nat, employees: seq<Employee>)
    requires 0 < m <= |rows|
    ensures var here := Tag(m - 1, RowFound(rows[m - 1].1, employees));
      DayFoundBelow(rows, m, employees) == DayFoundBelow(rows, m - 1, employees) + here
      && DayFoundBelow(rows, m - 1, employees) * here == {}
  {
  }

  lemma {:induction false} DayTuplesCountUpTo(rows: ShiftRows, m: nat, dayIndex: nat, week: int, employees: seq<Employee>)
    requires m <= |rows|
    ensures |DayTuples(rows[..m], dayIndex, week, employees)| == |DayFoundBelow(rows, m, employees)|
  {
    if m > 0 {
      assert rows[..m][..m - 1] == rows[..m - 1];
      DayTuplesCountUpTo(rows, m - 1, dayIndex, week, employees);
      RowTuplesCount(rows[m - 1].1, rows[m - 1].0, dayIndex, week, employees);
      TagCount(m - 1, RowFound(rows[m - 1].1, employees));
      DayFoundStep(rows, m, employees);
    } else {
      assert DayFoundBelow(rows, m, employees) == {};
    }
  }

  lemma DayTuplesCount(rows: ShiftRows, dayIndex: nat, week: int, employees: seq<Employee>)
    ensures |DayTuples(rows, dayIndex, week, employees)| == |DayFound(rows, employees)|
  {
    DayTuplesCountUpTo(rows, |rows|, dayIndex, week, employees);
    assert rows[..|rows|] == rows;
    assert DayFoundBelow(rows, |rows|, employees) == DayFound(rows, employees);
  }

  lemma WeekFoundStep(days: seq<string>, sel: Selection, m: nat, employees: seq<Employee>)
    requires 0 < m <= |days|
    ensures var here := Tag(m - 1, DayFound(DayOf(sel, days[m - 1]), employees));
      WeekFoundBelow(days, sel, m, employees) == WeekFoundBelow(days, sel, m - 1, employees) + here
      && WeekFoundBelow(days, sel, m - 1, employees) * here == {}
  {
  }

  lemma {:induction false} WeekTuplesCountUpTo(days: seq<string>, sel: Selection, m: nat, week: int, employees: seq<Employee>)
    requires m <= |days|
    ensures |WeekTuples(days[..m], sel, week, employees)| == |WeekFoundBelow(days, sel, m, employees)|
  {
    if m > 0 {
      assert days[..m][..m - 1] == days[..m - 1];
      WeekTuplesCountUpTo(days, sel, m - 1, week, employees);
      DayTuplesCount(DayOf(sel, days[m - 1]), m - 1, week, employees);
      TagCount(m - 1, DayFound(DayOf(sel, days[m - 1]), employees));
      WeekFoundStep(days, sel, m, employees);
    } else {
      assert WeekFoundBelow(days, sel, m, employees) == {};
    }
  }

  /** `allSelectedData` holds one tuple per truthy picker of the listed days whose id is
      found: no picker is lost and none is saved twice. */
  lemma WeekTuplesCount(days: seq<string>, sel: Selection, week: int, employees: seq<Employee>)
    ensures |WeekTuples(days, sel, week, employees)| == |WeekFound(days, sel, employees)|
  {
    WeekTuplesCountUpTo(days, sel, |days|, week, employees);
    assert days[..|days|] == days;
    assert WeekFoundBelow(days, sel, |days|, employees) == WeekFound(days, sel, employees);
  }

  /** A truthy picker whose id matches no employee still counts as a selection: when every
      truthy picker of the week is such a one, saving sends and prints an empty list
      instead of alerting. */
  lemma UnknownIdPrintsNothing(days: seq<string>, sel: Selection, week: int, employees: seq<Employee>,
                               d: nat, s: string, row: PickerRow, k: nat, c: Choice)
    requires d < |days| && (s, row) in DayOf(sel, days[d]) && (k, c) in row && IsChosen(c)
    requires WeekFound(days, sel, employees) == {}
    ensures WeekHas(days, sel) && WeekTuples(days, sel, week, employees) == []
  {
    var rows := DayOf(sel, days[d]);
    var i :| 0 <= i < |rows| && rows[i] == (s, row);
    var j :| 0 <= j < |row| && row[j] == (k, c);
    RowHasMeaning(row);
    DayHasMeaning(rows);
    WeekHasMeaning(days, sel);
    WeekTuplesCount(days, sel, week, employees);
  }
}
