# Leader app: a Dafny model of the shift timetable, its printout, the server's date checks and the forms

The leader app plans a kindergarten's week. Its React Native client has these parts:

- a timetable screen, where up to three employees are picked per shift for Sunday to Friday (Friday has a morning shift only);
- a printout of the week as an HTML table, in two versions (`creatTable.jsx` and `creatTable.tsx`);
- four form screens: sign-up, add employee (two versions) and edit employee;
- two employee-list screens;
- a welcome page with a greeting.

An Express server answers the client. The model covers the logic behind those screens and the server's request checks. Network, database, rendering and date-library calls are not modelled; the model keeps only the decisions taken and the data handed to them.

Modules, one or more per source file:

| module | models |
|---|---|
| `JsBuiltins` | the JavaScript built-ins the code relies on: the `\s` white-space class, `trim`, one-character `split`, `join`, `parseInt(s, 10)`, `String(n)` |
| `Calendar` | calendar days as integers (day 0 is 1970-01-01); the Sunday week start of dayjs; the 'DD/MM', 'DD/MM/YY' and ' DD/MM/YY' formats |
| `Timetable` | `timetable.tsx`: the nested selection, the six-day week, paging, the boundary strings, `handleSaveAndShare` and its tuples |
| `WeekGrid` | the grid both `creatTable` files build from the tuples (`weekDates`, `shiftsByDay`, the population loop, `pdfContent`) |
| `HtmlTable`, `PdfJsx`, `PdfTsx` | the printed table: the shared cells, the jsx version with its optional afternoon row, and the tsx version with three rows |
| `Server`, `RangeProtocol` | `server.js`: `parseDate`, the range check, the `GET /api/shifts` guard, `users/check`, `is_connected \|\| 0`; and how the client's boundary strings pass the range check |
| `Forms`, `Login`, `EditEmployee`, `ManagementAddEmployee`, `AddEmployee` | the two regular expressions as character predicates, the first-failing-check decision, and each screen's checks, payload and outcome |
| `EmployeeList`, `ManagedEmployeeScreen`, `LocalEmployeeScreen` | the expand toggle and the delete filter, and the two list screens as classes over their state fields |
| `WelcomePage` | `getGreeting` with the hour as a parameter, and the split into two lines |

Loops in the source are loops here:

- `getWeekDates` and the three nested `forEach` of `handleSaveAndShare`;
- the `reduce` that builds `shiftsByDay` and the population `forEach`.

Each is a method proved equal to a function. The lemmas are stated about that function. The two list screens are classes with `modifies` clauses. Each of their methods states the whole new state.

Where the model departs from a reading of the code's intent it follows the code. Some examples:

- the `|| [""]` fallbacks in `pdfContent` never apply, because an array is truthy;
- a white-space-only form field counts as filled;
- a picked id that matches no employee still counts as a selection, so saving sends and prints an empty list (`Timetable.UnknownIdPrintsNothing`).

## Model

| member | source | states |
|---|---|---|
| `JsBuiltins.Trim` | leader-app/components/login.tsx:51-55 | the result is the input with the white space at its two ends cut off and nothing else: a middle slice whose cut-off ends are all white space and whose own ends are not; a string without white space is unchanged; an all-white-space string becomes empty |
| `JsBuiltins.TrimmedOfUnique` | leader-app/components/login.tsx:51-55 | only one string is the input trimmed in that sense |
| `JsBuiltins.TrimCharacterised` | leader-app/components/login.tsx:51-55 | any string that is the input trimmed in that sense is `trim` of it |
| `JsBuiltins.Split` | server-ledar-app/server.js:274 | one more piece than separators, and no piece holds the separator |
| `JsBuiltins.JoinSplit` | leader-app/components/timetable.tsx:216-219 | joining the pieces of a split with the same separator gives the string back |
| `JsBuiltins.ParseInt` | server-ledar-app/server.js:276-278 | a number is read only if the string holds a digit; a string starting with a digit reads as a non-negative number |
| `JsBuiltins.ParseIntTwoDigits` | server-ledar-app/server.js:276 | two digits after any white space read as their two-digit value, so the leading space of a boundary string is skipped |
| `JsBuiltins.Pred` | server-ledar-app/server.js:277 | `parseInt(...) - 1`: NaN stays NaN, a number drops by one |
| `Calendar.StartOfWeek` | leader-app/components/timetable.tsx:153 | the week start is a Sunday on or before the day, less than seven days before it |
| `Calendar.StartOfWeekShift` | leader-app/components/timetable.tsx:175-182 | moving the day by whole weeks moves the week start by the same amount |
| `Calendar.SameWeek` | leader-app/components/timetable.tsx:165-169 | the seven days from a Sunday all have that Sunday as week start |
| `Calendar.TwoDigitYear` | leader-app/components/timetable.tsx:167 | a non-negative year prints as the two digits of the year modulo 100 |
| `Calendar.FormatDM` | leader-app/components/timetable.tsx:158 | five characters: the day as two digits, a '/', the month as two digits |
| `Calendar.FormatDMY` | leader-app/components/creatTable.jsx:18 | the 'DD/MM' label, a '/', then for a non-negative year the two digits of the year modulo 100 |
| `Calendar.DateString` | leader-app/components/timetable.tsx:220 | every day prints as eight characters with '/' at positions 2 and 5 |
| `Calendar.DateStringsDiffer` | leader-app/components/creatTable.jsx:14-21 | two days less than a century apart (from year 0 on) print different 'DD/MM/YY' strings, so the six date keys are distinct |
| `Calendar.CivilRoundTrip` | server-ledar-app/server.js:283 | converting a day to its civil date and back gives the same day; this is how `Date.UTC` is read |
| `Server.MakeDay` | server-ledar-app/server.js:283 | for a month index 0 to 11 the day is that civil date's day number; other months roll into other years |
| `Server.DateUtc` | server-ledar-app/server.js:283 | a time value results only from three numbers, and only within TimeClip's range |
| `Server.ParseDateFields` | server-ledar-app/server.js:273-281 | null exactly when the string does not have two '/' separators (three parts) |
| `Server.ParseDate` | server-ledar-app/server.js:273-284 | `parseDate` is null exactly when the string does not split into three parts |
| `Server.FullYear` | server-ledar-app/server.js:281 | a year below 100 becomes 2000 plus the year, other years are kept, and NaN stays NaN |
| `Server.ShiftsRange` | server-ledar-app/server.js:271-291 | missing dates crash the handler; a null or invalid parse or start after end gives 400; otherwise the query runs, with start not after end |
| `Server.ParseDateRoundTrip` | server-ledar-app/server.js:273-284 | any 'DD/MM/YY' of a valid date in 2000 to 2099, after any white space, parses back to that very day |
| `Server.ParseFormattedFields` | server-ledar-app/server.js:274-281 | such a string hands its own day, month index (month minus one) and four-digit year to `Date.UTC` |
| `Server.SplitDate` | server-ledar-app/server.js:274-275 | a date with two '/' separators splits into its three pieces |
| `Server.DateUtcOfCivil` | server-ledar-app/server.js:283 | the fields of a valid 21st-century date denote that date |
| `Server.ParseDigitDate` | server-ledar-app/server.js:276-283 | any two-digit day, month and year are passed on unchecked |
| `Server.DigitFieldValues` | server-ledar-app/server.js:276-281 | the day, month index and year each parse to their digits' values |
| `Server.DayRollsOver` | server-ledar-app/server.js:283 | day 32 of January is 1 February: the day is not range-checked |
| `Server.MonthRollsOver` | server-ledar-app/server.js:277-283 | month '13' is January of the next year: the month is not range-checked |
| `Server.ParseTwoDigits` | server-ledar-app/server.js:276 | two digits parse to their value |
| `Server.NonDigitDayIsInvalid` | server-ledar-app/server.js:276-291 | a day without a digit gives an Invalid Date (not null), and the range check answers 400 whatever the other date is |
| `Server.NoDigitIsNaN` | server-ledar-app/server.js:276 | a string without a digit parses to NaN |
| `Server.GetShifts` | server-ledar-app/server.js:232-236 | 400 exactly when either date is missing or empty; otherwise both dates go to the query |
| `Server.UsersCheck` | server-ledar-app/server.js:22-32 | `exists: true` exactly for a positive count; 404 for a count of zero or less; 500 for a database error |
| `Server.OrZero` | server-ledar-app/server.js:79 | a truthy value is kept; a falsy one becomes 0; the result is never undefined or null |
| `Server.Truthy` | server-ledar-app/server.js:79 | undefined and null are falsy, every object is truthy, and NaN is falsy |
| `Server.InsertUserParams` | server-ledar-app/server.js:73-80 | six parameters: the five fields as sent, then `is_connected \|\| 0`: the sent value when it is truthy and the number 0 otherwise |
| `Server.UpdateUserParams` | server-ledar-app/server.js:123-131 | the INSERT's six parameters, then the id |
| `RangeProtocol.BoundaryParses` | leader-app/components/timetable.tsx:167-168 | a ' DD/MM/YY' string of a day in 2000 to 2099 parses on the server to that day |
| `RangeProtocol.WeekRangeAccepted` | server-ledar-app/server.js:286-291 | the client's two boundary strings for a week pass the range check as exactly the week's Sunday and Saturday |
| `RangeProtocol.GetWeekBoundariesAccepted` | leader-app/components/timetable.tsx:165-170 | for a week of 2000 to 2099, `getWeekBoundaries` of any day gives strings the server accepts as its week's Sunday to Saturday, a range holding that day |
| `RangeProtocol.ParsedRangeAccepted` | server-ledar-app/server.js:286-291 | two dates that parse to days in order, equal days included, are accepted as those days |
| `Timetable.FridayIsDayFive` | leader-app/components/timetable.tsx:15-17 | of the seven day names only index 5 is Friday |
| `Timetable.ShiftKeys` | leader-app/components/timetable.tsx:209 | one shift key per entry of a day's selection |
| `Timetable.SetPicker` | leader-app/components/timetable.tsx:193-196 | writing a picker index keeps the indices ascending |
| `Timetable.HandleEmployeeChange` | leader-app/components/timetable.tsx:188-199 | the changed day is added if new; every other day is kept as it was |
| `Timetable.PickerGetSet` | leader-app/components/timetable.tsx:193-196 | after writing index k, k reads the new value and every other index reads as before |
| `Timetable.ShiftGetSet` | leader-app/components/timetable.tsx:188-199 | after writing a shift, that shift holds the updated pickers and every other shift reads as before |
| `Timetable.CellAfterChange` | leader-app/components/timetable.tsx:188-199 | the changed cell holds the new id; every other day, shift and picker reads as before |
| `Timetable.ChangeOverwrites` | leader-app/components/timetable.tsx:188-199 | a later change to the same cell replaces the earlier one entirely |
| `Timetable.ChangeIdempotent` | leader-app/components/timetable.tsx:188-199 | making the same change twice equals making it once |
| `Timetable.SetShiftKeys` | leader-app/components/timetable.tsx:193 | shift keys keep their insertion order, and a new shift goes last |
| `Timetable.SetShift` | leader-app/components/timetable.tsx:188-199 | the written shift is present afterwards; an existing shift keeps the number of entries, a new one adds exactly one |
| `Timetable.SetShiftSorted` | leader-app/components/timetable.tsx:193-196 | the picker indices of every shift stay ascending |
| `Timetable.ChangeKeepsWellFormed` | leader-app/components/timetable.tsx:188-199 | every cell keeps holding at most one id: shift names stay distinct and picker indices ascending |
| `Timetable.PickerValue` | leader-app/components/timetable.tsx:253 | a picker shows a chosen employee exactly when its cell holds a truthy id, and otherwise the placeholder |
| `Timetable.PickerShowsChange` | leader-app/components/timetable.tsx:253-254 | after a change the picker shows the chosen employee, or the placeholder for a falsy value |
| `Timetable.DayShifts` | leader-app/components/timetable.tsx:282-294 | the morning shift comes first on every day, and Friday is exactly the day with a single shift |
| `Timetable.PickerSlots` | leader-app/components/timetable.tsx:250-253 | three pickers per shift: entry i is picker i mod 3 + 1 of shift i div 3 |
| `Timetable.PickerSlotsMembers` | leader-app/components/timetable.tsx:250 | each shift of a day gets pickers 1, 2 and 3 and no others |
| `Timetable.DaySlots` | leader-app/components/timetable.tsx:282-294 | Friday offers only the morning shift; other days offer morning, afternoon and evening, each with pickers 1 to 3 |
| `Timetable.RenderedDays` | leader-app/components/timetable.tsx:15-17 | the days shown are Sunday to Friday, the first six names |
| `Timetable.GetWeekDates` | leader-app/components/timetable.tsx:152-163 | six entries for the consecutive days from the week start, labelled with the first six day names and 'DD/MM', and `isFriday` only at index 5 |
| `Timetable.GetWeekBoundaries` | leader-app/components/timetable.tsx:165-170 | the boundaries of the week start: both strings start with a space |
| `Timetable.BoundariesFrom` | leader-app/components/timetable.tsx:167-168 | two nine-character strings, a space then 'DD/MM/YY', with '/' at positions 3 and 6 |
| `Timetable.BoundariesDiffer` | leader-app/components/timetable.tsx:167-168 | from year 0 on the Sunday and the Saturday boundaries are different strings |
| `Timetable.BoundariesOfWeek` | leader-app/components/timetable.tsx:165-170 | every day of a week has the same boundaries |
| `Timetable.ChangeWeek` | leader-app/components/timetable.tsx:175-182 | 'next' moves the week start 7 days on, 'prev' 7 days back, anything else leaves it |
| `Timetable.NextThenPrev` | leader-app/components/timetable.tsx:175-182 | next then prev shows the original week again; prev then next returns the very same day |
| `Timetable.SendShiftRangeQuery` | leader-app/components/timetable.tsx:77-92 | refused exactly when a date is empty, or else when start is not before end; otherwise both dates are posted |
| `Timetable.BoundariesNeverMissing` | leader-app/components/timetable.tsx:80-83 | the boundary strings are never empty, so they are never refused as missing |
| `Timetable.FindEmployee` | leader-app/components/timetable.tsx:213 | the result is an employee of the list with that id; none exactly when no employee has it; when some employee has it, the first one in the list is returned |
| `Timetable.SplitName` | leader-app/components/timetable.tsx:216-219 | the last name has no space |
| `Timetable.SplitNameRejoins` | leader-app/components/timetable.tsx:215-219 | the last name is the last space-separated token, and first + " " + last gives the full name back |
| `Timetable.SplitNameOfPieces` | leader-app/components/timetable.tsx:216-219 | with at least one space, the two halves rejoin to the string |
| `Timetable.SplitSimpleName` | leader-app/components/timetable.tsx:215-219 | names without spaces come back exactly |
| `Timetable.FullName` | leader-app/components/timetable.tsx:215 | first name, a space, last name; for a last name without a space, splitting the full name gives the last name back |
| `Timetable.RowHasMeaning` | leader-app/components/timetable.tsx:210-212 | a shift has a selection exactly when one of its pickers holds a truthy id |
| `Timetable.DayHasMeaning` | leader-app/components/timetable.tsx:209-212 | a day has a selection exactly when one of its shifts has one |
| `Timetable.WeekHasMeaning` | leader-app/components/timetable.tsx:207-212 | the week has a selection exactly when one of the listed days has one |
| `Timetable.CollectRow` | leader-app/components/timetable.tsx:210-231 | the inner loop returns the shift's tuples in picker order, and whether some picker was truthy |
| `Timetable.CollectDay` | leader-app/components/timetable.tsx:209-232 | the middle loop returns the day's tuples in shift order, and whether some shift had a selection |
| `Timetable.CollectSelections` | leader-app/components/timetable.tsx:204-233 | the outer loop returns the tuples of the listed days in scan order, and `hasEmployees` exactly when any truthy selection exists |
| `Timetable.CellTuple` | leader-app/components/timetable.tsx:215-228 | the tuple holds the picker index, the shift and the day's 'DD/MM/YY' date, and a first and last name that rejoin with a space to the employee's full name, the last name without a space |
| `Timetable.CellTuples` | leader-app/components/timetable.tsx:211-230 | a picker contributes one tuple exactly when its value is truthy and names an employee, and none otherwise |
| `Timetable.RowTuples` | leader-app/components/timetable.tsx:210-231 | a shift contributes at most one tuple per picker, and any only when some picker is truthy |
| `Timetable.DayTuples` | leader-app/components/timetable.tsx:209-232 | a day contributes tuples only when it has a selection |
| `Timetable.WeekTuples` | leader-app/components/timetable.tsx:208-233 | the week yields tuples only when it has a selection |
| `Timetable.RowTuplesExact` | leader-app/components/timetable.tsx:210-231 | a tuple is among a shift's exactly when it is the tuple of one of its truthy pickers whose id is found, for the first employee with that id |
| `Timetable.DayTuplesExact` | leader-app/components/timetable.tsx:209-232 | a tuple is among a day's exactly when some shift of the day picks it |
| `Timetable.WeekTuplesExact` | leader-app/components/timetable.tsx:208-233 | the saved tuples are exactly those of the truthy pickers of the listed days whose id is found, each with its picker index, shift, date and the split name of the first employee with that id |
| `Timetable.PickedCellSaved` | leader-app/components/timetable.tsx:208-233 | every truthy picker of a listed day whose id names an employee has its tuple saved |
| `Timetable.RowTuplesCount` | leader-app/components/timetable.tsx:210-231 | a shift yields as many tuples as it has truthy pickers whose id is found |
| `Timetable.DayTuplesCount` | leader-app/components/timetable.tsx:209-232 | a day yields as many tuples as it has truthy, found pickers over all its shifts |
| `Timetable.WeekTuplesCount` | leader-app/components/timetable.tsx:208-233 | the week yields one tuple per truthy, found picker of the listed days: none lost, none saved twice |
| `Timetable.HandleSaveAndShare` | leader-app/components/timetable.tsx:201-244 | the range delete comes first; if it throws nothing else happens; with no truthy selection only the alert follows; otherwise the tuples are sent, then printed from the ' DD/MM/YY' week start |
| `Timetable.UnknownIdPrintsNothing` | leader-app/components/timetable.tsx:211-214 | whenever a listed day holds a truthy picker and no truthy picker's id matches an employee, the week counts as selected yet yields no tuple |
| `WeekGrid.ShiftOf` | leader-app/components/creatTable.jsx:32-33 | a key names a list only as that list's own key |
| `WeekGrid.ShiftOfKey` | leader-app/components/creatTable.jsx:24 | each of the three keys names its list |
| `WeekGrid.Push` | leader-app/components/creatTable.jsx:34 | the list of the shift gains the name at its end; the other two lists are untouched |
| `WeekGrid.CharAt0` | leader-app/components/creatTable.jsx:34 | `charAt(0)` is the first character, or "" for an empty last name |
| `WeekGrid.RenderName` | leader-app/components/creatTable.jsx:34 | the first name and a space come first; the jsx style then puts the last name's initial and a dot, at most three characters, the tsx style the whole last name |
| `WeekGrid.WeekDates` | leader-app/components/creatTable.jsx:14-21 | six entries for the consecutive days from the start, labelled with the first six names |
| `WeekGrid.DateStringSeparatesWeek` | leader-app/components/creatTable.jsx:18-19 | the six 'DD/MM/YY' keys of a week from year 0 on are distinct |
| `WeekGrid.EmptyGrid` | leader-app/components/creatTable.jsx:23-26 | the keys are exactly the week's dates, each with three empty lists |
| `WeekGrid.InitialGrid` | leader-app/components/creatTable.jsx:23-26 | the `reduce` loop builds exactly that grid |
| `WeekGrid.Place` | leader-app/components/creatTable.jsx:29-41 | a step keeps the keys, and a tuple with an unknown date or shift leaves the grid as it was |
| `WeekGrid.PlaceBucket` | leader-app/components/creatTable.jsx:29-41 | after one step a list is what it was, plus the tuple's name exactly when the tuple has that date and that shift |
| `WeekGrid.Placed` | leader-app/components/creatTable.jsx:29-41 | placing the tuples keeps the grid's keys |
| `WeekGrid.Populate` | leader-app/components/creatTable.jsx:29-41 | the `forEach` loop gives the grid of the tuples placed in order |
| `WeekGrid.SelectedNonEmpty` | leader-app/components/creatTable.jsx:29-41 | a list is non-empty exactly when some tuple has its date and its shift |
| `WeekGrid.PlacedBuckets` | leader-app/components/creatTable.jsx:29-41 | every list ends as it started, followed by the names of exactly the tuples with its date and shift, in input order, duplicates kept |
| `WeekGrid.DroppedTuple` | leader-app/components/creatTable.jsx:35-40 | a tuple that is not kept leaves the grid unchanged |
| `WeekGrid.IndexIrrelevant` | leader-app/components/creatTable.jsx:29 | the tuple's index field plays no part in the placement |
| `WeekGrid.PdfContent` | leader-app/components/creatTable.jsx:43-52 | the same days in the same order, each with exactly its key's three lists |
| `WeekGrid.ContentOfWeek` | leader-app/components/creatTable.jsx:14-52 | day i of the printout is start + i under label i, and each of its lists holds exactly the selected names |
| `WeekGrid.NameCountEntries` | leader-app/components/creatTable.jsx:43-52 | the number of printed entries is the number of printed names |
| `WeekGrid.WeekEntriesKept` | leader-app/components/creatTable.tsx:28-40 | for distinct dates the selected lists hold one entry per kept tuple |
| `WeekGrid.ContentEntriesSelected` | leader-app/components/creatTable.tsx:42-51 | content whose lists are the selected ones prints the selected entries |
| `WeekGrid.NoLossNoDuplication` | leader-app/components/creatTable.tsx:28-51 | the printed (date, shift, name) entries are exactly the multiset of the kept tuples, and the name count is the number of kept tuples |
| `WeekGrid.WeekContentSelected` | leader-app/components/creatTable.jsx:43-52 | every printed list is the one the tuples select, under the week's dates |
| `HtmlTable.TdCell` | leader-app/components/creatTable.jsx:67 | a cell is `<td>`, the names joined by `<br>`, then `</td>`; an empty list prints an empty cell and one name prints alone |
| `HtmlTable.TdCellDetermines` | leader-app/components/creatTable.jsx:67 | two lists of non-empty names without '<' never print the same cell |
| `HtmlTable.RenderedNamePrintable` | leader-app/components/creatTable.jsx:34 | a rendered name is never empty, and has no '<' when its parts have none |
| `HtmlTable.HeaderRow` | leader-app/components/creatTable.jsx:143-146 | the header is the image cell, then one cell per day in order |
| `HtmlTable.HeaderCell` | leader-app/components/creatTable.jsx:145 | `<th>`, the day label, `<br>`, the date, then `</th>`, each part at its position |
| `HtmlTable.ShiftCells` | leader-app/components/creatTable.jsx:67 | one cell per day, in order, each holding that day's list joined by `<br>` |
| `HtmlTable.RowShifts` | leader-app/components/creatTable.jsx:147-155 | the shifts of the rows, top to bottom |
| `HtmlTable.SameRowSameLists` | leader-app/components/creatTable.jsx:67-72 | one row printed from two contents means equal lists for that row's shift |
| `HtmlTable.RowMarkup` | leader-app/components/creatTable.jsx:147-155 | a row opens with `<tr class="shift-header"><th>` and the shift's name, closes the header cell, and ends with `</tr>` |
| `HtmlTable.TableMarkup` | leader-app/components/creatTable.jsx:142-156 | the table opens with `<table><tr>` followed by the header cells and ends with `</table>` |
| `PdfJsx.JsxDaysAreWeekDays` | leader-app/components/creatTable.jsx:6-8 | the labels are the timetable's first six day names |
| `PdfJsx.HasAfternoonData` | leader-app/components/creatTable.jsx:68 | false exactly when every day's afternoon list is empty |
| `PdfJsx.GenerateHtml` | leader-app/components/creatTable.jsx:66-72 | the header row, then morning, afternoon exactly when some day has an afternoon name, and evening; each row shows its shift's lists |
| `PdfJsx.EveryListShown` | leader-app/components/creatTable.jsx:67-72 | every non-empty list is printed, in its shift's row and its day's column |
| `PdfJsx.TableDeterminesContent` | leader-app/components/creatTable.jsx:143-155 | two contents of printable lists that print the same table have the same lists |
| `PdfJsx.TableDeterminesList` | leader-app/components/creatTable.jsx:143-155 | the same, one list at a time: the missing afternoon row means both afternoon lists are empty |
| `PdfJsx.RowShowsContent` | leader-app/components/creatTable.jsx:147-155 | a single row of a table that shows the content shows it too |
| `PdfJsx.AfternoonDataIff` | leader-app/components/creatTable.jsx:68 | for the selected lists, some day has an afternoon name exactly when some tuple of one of those days has the afternoon shift |
| `PdfJsx.AfternoonRowIff` | leader-app/components/creatTable.jsx:29-41 | the afternoon row of a week is printed exactly when some tuple is dated one of its days with the afternoon shift |
| `PdfJsx.PrintedWeek` | leader-app/components/creatTable.jsx:143-155 | the header names the six days and their dates; each cell holds the selected names of its day and shift, first name and initial |
| `PdfJsx.GeneratePdf` | leader-app/components/creatTable.jsx:10-54 | `generatePDF` up to the printing builds the table of the week's content |
| `PdfTsx.GenerateHtml` | leader-app/components/creatTable.tsx:129-146 | the header row and exactly three shift rows, morning, afternoon and evening, each showing its shift's lists |
| `PdfTsx.RowIndex` | leader-app/components/creatTable.tsx:134-145 | each shift has one of the three rows |
| `PdfTsx.TableDeterminesContent` | leader-app/components/creatTable.tsx:129-146 | two contents of printable lists that print the same table have the same lists |
| `PdfTsx.PrintedWeek` | leader-app/components/creatTable.tsx:129-146 | a header of the image cell and six day cells, then three rows of six cells holding the selected full names |
| `PdfTsx.GeneratePdf` | leader-app/components/creatTable.tsx:9-53 | `generatePDF` up to the printing builds the table of the week's content |
| `Forms.IndexOf` | leader-app/components/login.tsx:18-21 | none exactly when the character is absent; otherwise its first position |
| `Forms.EmailPatternIff` | leader-app/components/login.tsx:18-21 | the regular expression matches exactly the addresses with no white space, one '@' after a non-empty part, and a '.' that is neither the first nor the last character of the domain |
| `Forms.ValidEmail` | leader-app/components/login.tsx:18-21 | an accepted address holds exactly one '@', not in first place and followed by at least three characters |
| `Forms.EmailPatternValid` | leader-app/components/login.tsx:19-20 | a match of the regular expression is a valid address |
| `Forms.ValidEmailPattern` | leader-app/components/login.tsx:19-20 | a valid address matches the regular expression at its '@' and any inner dot |
| `Forms.ValidPhone` | leader-app/components/login.tsx:23-26 | an accepted phone number holds no white space |
| `Forms.ValidatedFieldsUntrimmed` | leader-app/components/login.tsx:39-54 | an address and a phone that pass the checks are unchanged by `trim` |
| `Forms.FirstFailure` | leader-app/components/login.tsx:29-47 | sent exactly when every check passes, with the payload; otherwise the message of a failing check |
| `Forms.FirstFailureIsFirst` | leader-app/components/login.tsx:29-47 | the message shown is that of the first failing check |
| `Forms.RequiredChecks` | leader-app/components/employeeManagement/editEmployeeScreen.tsx:43-56 | three checks in the order required fields, e-mail, phone, with their alerts; all pass exactly when the four required fields are filled and the e-mail and phone are valid (the management add screen, addEmployeeScreen.tsx:25-39, makes the same checks) |
| `Login.Checks` | leader-app/components/login.tsx:29-47 | four checks, in the order filled, passwords, e-mail, phone |
| `Login.TrimmedPayload` | leader-app/components/login.tsx:49-64 | each of the five sent fields is its form field trimmed, and the user is marked connected |
| `Login.HandleAddEmployee` | leader-app/components/login.tsx:28-64 | the first failing check decides, and the trimmed payload is sent only when all pass |
| `Login.WhiteSpaceFieldIsFilled` | leader-app/components/login.tsx:29-32 | a white-space-only field passes the fill check |
| `Login.MismatchReportedFirst` | leader-app/components/login.tsx:34-37 | passwords differing only in spaces are a mismatch, reported before the e-mail and phone checks |
| `Login.SentPayload` | leader-app/components/login.tsx:49-64 | the e-mail and phone go as typed, the names and password trimmed, and the user is marked connected |
| `Login.AfterPost` | leader-app/components/login.tsx:66-73 | success leaves the screen for a reset to 'Welcome' with no alert; failure alerts and stays |
| `EditEmployee.InitialForm` | leader-app/components/employeeManagement/editEmployeeScreen.tsx:26-30 | the form starts from the employee's five fields |
| `EditEmployee.TrimmedData` | leader-app/components/employeeManagement/editEmployeeScreen.tsx:60-66 | each of the five fields is its form field trimmed |
| `EditEmployee.HandleUpdateEmployee` | leader-app/components/employeeManagement/editEmployeeScreen.tsx:42-69 | the first failing check decides; otherwise the five trimmed fields are sent to the employee's own id |
| `EditEmployee.PositionOptional` | leader-app/components/employeeManagement/editEmployeeScreen.tsx:43-46 | clearing the position does not change whether the update is sent, and an empty position is sent empty |
| `EditEmployee.SentUpdate` | leader-app/components/employeeManagement/editEmployeeScreen.tsx:60-69 | the id is the employee's; the e-mail and phone go as typed; the names and position are trimmed |
| `EditEmployee.UnchangedFormResent` | leader-app/components/employeeManagement/editEmployeeScreen.tsx:26-69 | submitting untouched stored data that passes the checks sends the same fields back |
| `EditEmployee.AfterPut` | leader-app/components/employeeManagement/editEmployeeScreen.tsx:71-75 | success confirms and goes back; failure alerts an error and stays |
| `ManagementAddEmployee.TrimmedPayload` | leader-app/components/employeeManagement/addEmployeeScreen.tsx:41-54 | the names, phone and e-mail are their form fields trimmed |
| `ManagementAddEmployee.HandleAddEmployee` | leader-app/components/employeeManagement/addEmployeeScreen.tsx:25-54 | the first failing check decides; otherwise the trimmed names, phone and e-mail are sent |
| `ManagementAddEmployee.PositionIgnored` | leader-app/components/employeeManagement/addEmployeeScreen.tsx:45-54 | the position neither blocks the request nor reaches it |
| `ManagementAddEmployee.SentPayload` | leader-app/components/employeeManagement/addEmployeeScreen.tsx:43-54 | the names are trimmed, and the phone and e-mail go as typed |
| `ManagementAddEmployee.AfterPost` | leader-app/components/employeeManagement/addEmployeeScreen.tsx:57-67 | status 201 confirms and goes back; another reply shows the server's message when there is one, otherwise nothing; a rejection alerts an error |
| `AddEmployee.Checks` | leader-app/components/addEmployeeScreen.tsx:22-36 | three checks, in the order all five filled, e-mail, phone |
| `AddEmployee.HandleAddEmployee` | leader-app/components/addEmployeeScreen.tsx:22-45 | the first failing check decides; otherwise the five fields are sent as typed |
| `AddEmployee.PositionRequired` | leader-app/components/addEmployeeScreen.tsx:23-26 | an empty position is refused with the fill-all-fields alert |
| `AddEmployee.SentUntrimmed` | leader-app/components/addEmployeeScreen.tsx:39-45 | the payload holds the fields exactly as typed |
| `AddEmployee.AfterPost` | leader-app/components/addEmployeeScreen.tsx:38-51 | success confirms and goes back; failure alerts an English error and stays |
| `EmployeeList.Toggle` | leader-app/components/employeeManagement/employeeManagement.tsx:46-48 | pressing the expanded row collapses it, and any other press expands exactly that row |
| `EmployeeList.TogglePair` | leader-app/components/employeeManagement/employeeManagement.tsx:47 | pressing a row twice, starting with it not expanded, ends with nothing expanded |
| `EmployeeList.IsExpanded` | leader-app/components/employeeManagement/employeeManagement.tsx:20-47 | with nothing expanded, as at the start, no row shows its details; pressing an expanded row collapses everything |
| `EmployeeList.PressExpandsOnlyThatId` | leader-app/components/employeeManagement/employeeManagement.tsx:102-123 | after a press a row shows its details exactly when it has the pressed id and that id was not expanded |
| `EmployeeList.RemoveId` | leader-app/components/employeeManagement/employeeManagement.tsx:65 | the list shrinks by the number of entries with the id |
| `EmployeeList.RemoveIdMembers` | leader-app/components/employeeManagement/employeeManagement.tsx:65 | an entry is left exactly when it was there and does not have the id |
| `EmployeeList.RemoveIdConcat` | leader-app/components/employeeManagement.tsx:59 | the remaining entries keep their order: filtering two lists in a row filters each |
| `EmployeeList.RemoveIdIdempotent` | leader-app/components/employeeManagement.tsx:59 | deleting an id twice removes nothing more |
| `EmployeeList.RemoveAbsentId` | leader-app/components/employeeManagement.tsx:59 | deleting an id that no entry has leaves the list as it is |
| `ManagedEmployeeScreen.Screen.constructor` | leader-app/components/employeeManagement/employeeManagement.tsx:19-21 | the screen starts with an empty list, nothing expanded, and loading |
| `ManagedEmployeeScreen.Screen.HandlePress` | leader-app/components/employeeManagement/employeeManagement.tsx:46-48 | the expanded id becomes the toggle of the old one; the list and the loading flag are unchanged |
| `ManagedEmployeeScreen.Screen.StartFetch` | leader-app/components/employeeManagement/employeeManagement.tsx:39-44 | a fetch on focus sets loading and changes nothing else |
| `ManagedEmployeeScreen.Screen.FinishFetch` | leader-app/components/employeeManagement/employeeManagement.tsx:24-37 | loading is cleared on both paths; success replaces the list; failure alerts and keeps the old list |
| `ManagedEmployeeScreen.Screen.DeleteItem` | leader-app/components/employeeManagement/employeeManagement.tsx:62-70 | only a successful delete filters out the id; a failed one alerts and leaves the list; nothing else changes |
| `ManagedEmployeeScreen.Screen.Arrow` | leader-app/components/employeeManagement/employeeManagement.tsx:102 | the arrow is '▲' exactly for the expanded row, else '▼' |
| `LocalEmployeeScreen.Screen.constructor` | leader-app/components/employeeManagement.tsx:17-19 | the screen starts with an empty list, nothing expanded, and loading |
| `LocalEmployeeScreen.Screen.HandlePress` | leader-app/components/employeeManagement.tsx:37-39 | the expanded id becomes the toggle of the old one; the list and the loading flag are unchanged |
| `LocalEmployeeScreen.Screen.FinishFetch` | leader-app/components/employeeManagement.tsx:22-31 | loading is cleared on both paths; success replaces the list; failure keeps it |
| `LocalEmployeeScreen.Screen.DeleteItem` | leader-app/components/employeeManagement.tsx:58-60 | the entries with the id leave the local list, and nothing else changes |
| `LocalEmployeeScreen.Screen.Arrow` | leader-app/components/employeeManagement.tsx:69 | the arrow is '▲' exactly for the expanded row, else '▼' |
| `WelcomePage.Phrase` | leader-app/components/welcomePage.jsx:11-20 | morning before 12, afternoon from 12 to before 17, evening from 17 to before 21, night from 21 |
| `WelcomePage.Greeting` | leader-app/components/welcomePage.jsx:7-23 | the salutation with the user's name, a line break, then one of the four phrases |
| `WelcomePage.OneBucketPerHour` | leader-app/components/welcomePage.jsx:12-20 | the four phrases are distinct, and every hour gets one of them |
| `WelcomePage.PhraseOneLine` | leader-app/components/welcomePage.jsx:13-19 | no phrase holds a line break |
| `WelcomePage.GreetingLines` | leader-app/components/welcomePage.jsx:7-26 | splitting the greeting at '\n' gives the salutation with the name, then the phrase, for a name without a line break |

## Left out

- Network, database and device I/O are not modelled. This covers the axios and fetch requests, the SQL text, `Print.printAsync`/`printToFileAsync` and `Sharing.shareAsync`. The model keeps what is handed to them (payloads, query parameters, HTML tables) and takes their outcome as a parameter (`succeeded`, `deleted`, `deleteThrows`, `Response`, `Option` results).
- The assignment and range-delete routes the client calls (`/api/shifts/assign`, `DELETE /api/shifts/range`) are not modelled, because `server.js` does not define them. `server-ledar-app/database.js` is not part of this model.
- dayjs and moment are not modelled. The current week is a day number. The week start is the Sunday on or before it. The formats are written out in `Calendar`.
- `PdfJsx.GeneratePdf` and `PdfTsx.GeneratePdf` take the start as a day number. They do not model moment's parsing of the week-start string. They take `moment(date, 'DD/MM/YY').format('DD/MM/YY')` to give the tuple's date back unchanged.
- The grid lemmas take the date format as a parameter (`format: int -> string`). `WeekGrid.DateStringSeparatesWeek` ties them to 'DD/MM/YY'.
- `Timetable.SendShiftRangeQuery` does not model the `new Date(...)` comparison of the reversed strings. It takes the comparison's outcome as the parameter `startNotBeforeEnd`.
- `ManagedEmployeeScreen.Screen.FinishFetch` does not sort by `localeCompare`. Locale collation is a foreign library, so the method takes the list already sorted. The timetable's `fetchEmployeeData` sorting and its user lookup are left out for the same reason.
- Un-awaited ordering is not modelled: the concurrent requests of `useEffect` and `changeWeek` and the fire-and-forget `sendShiftAssignment` are asynchronous interleavings.
- `ManagementAddEmployee.AfterPost` and the other `AfterPost`/`AfterPut` functions do not model axios rejecting non-2xx statuses. Whether a reply arrives or the promise rejects is an input.
- React rendering, styles, navigation and the image picker are not modelled, beyond the arrow, the expanded row and the shifts and pickers offered per day.
- The HTML document template around the table (whitespace, CSS, the logo) is left out; the markup is modelled from the table structure down. HTML escaping is not modelled: `HtmlTable.TdCellDetermines` assumes names without '<'.
- `WeekGrid.CharAt0` takes one `char` per code unit. JavaScript strings are UTF-16, and for a name starting with a character outside the Basic Multilingual Plane `charAt(0)` gives half of a surrogate pair.
- `JsBuiltins.ParseInt` uses arbitrary-precision integers instead of IEEE doubles, so it does not model rounding of very long digit runs.
- `WeekGrid.EmptyGrid` and `Timetable.HandleEmployeeChange`: keys that clash with prototype properties are not modelled. This applies to the `shiftsByDay` object (`creatTable.jsx:22-25`) and to the selection object (`timetable.tsx:188-199`).
- `Server.DateUtc` counts time values in whole days, with TimeClip at 10^8 days. Floating-point time values are not modelled.
- The regular-expression engine is not modelled. The two patterns are restated as predicates over characters, and `Forms.EmailPatternIff` proves them equal to the regex's reading.
- The unused `isConnected`, `user` and `dateString` fields are left out where nothing reads them.
- `Timetable.ShiftTuple` keeps the picker index as a `nat`. In the source it is the object key, the string "1", "2" or "3" (`timetable.tsx:210`, `timetable.tsx:223`). The grid destructures it as `id` and never reads it (`creatTable.jsx:29`, `creatTable.tsx:28`); `WeekGrid.IndexIrrelevant` proves that it plays no part.
- `Server.JsValue` has a single `Obj` case for every object and array. Their contents are not modelled, since `is_connected || 0` only asks whether the value is truthy.
- Console output is not modelled. This covers the `console.log`/`console.error` calls of `creatTable.jsx:36-39` and `timetable.tsx:241`, as well as the error logging around the requests. The model keeps the branch each message marks.
