# Schedula in Dafny

Schedula assigns university courses to classrooms and time slots. Two text
files feed it:

- **File 1** lists the rooms with their capacities, the course numbers and
  the time slots.
- **File 2** lists each course's enrollment and its preferred time slots.

This project models the three pure parts of the repository and proves
properties about them.

1. **The backend pipeline** (`backend/scheduling_algorithm.py`):
   - two line-oriented parsers (`parse_file1`, `parse_file2`);
   - the range and format validator (`validate_inputs`);
   - the greedy first-fit scheduler (`schedule_courses`);
   - the conflict report (`generate_conflict_report`);
   - the order in which `main` calls them.
2. **The alternative data layer** (`backend/scheduling_data_structures.py`):
   - the `Room`, `Course` and `TimeSlot` records;
   - the `;`-sectioned file-1 parser (`parse_input_file1`);
   - the header-skipping file-2 parser (`parse_input_file2`);
   - the cross-file validator (`validate_input_data`).
3. **The page's pure logic** (`frontend/src/app/schedula/page.jsx`):
   - the grid builder `formatScheduleGrid`;
   - the CSV text built by `exportSchedule`;
   - the two downloadable templates.

## How the model is laid out

Python's ordered dicts are association lists (`Dicts`). Exceptions become
`Failure` values (`Wrappers`). The string operations are modelled in `Text`:

- `strip`, `rstrip`, `split` on a separator, `split()` on whitespace;
- `join`, `int` and `str`;
- `in` on strings.

JavaScript's `sort()` and `new Set` are modelled in `LexOrder`.

| file | module | models |
|---|---|---|
| wrappers.dfy | Wrappers | `Option`, `Result` |
| seqs.dfy | Seqs | small facts about sequence concatenation |
| text.dfy | Text | the string operations used by the backend |
| dicts.dfy | Dicts | dicts as association lists with unique keys |
| lexorder.dfy | LexOrder | string order, sorting, de-duplication |
| algorithm.dfy | Algorithm | `parse_file1`, `parse_file2` |
| validation.dfy | Validation | `validate_inputs` |
| scheduler.dfy | Scheduler | `schedule_courses` (functional model and loop method), `generate_conflict_report` |
| pipeline.dfy | Pipeline | `main` without pandas |
| datastructures.dfy | DataStructures | records, `parse_input_file1`, `parse_input_file2` |
| datavalidation.dfy | DataValidation | `validate_input_data` |
| grid.dfy | ScheduleGrid | `formatScheduleGrid` |
| export.dfy | Export | the CSV text of `exportSchedule`, the templates |

## Model

| member | source | states |
|---|---|---|
| Text.Strip | backend/scheduling_algorithm.py:10 | `strip()` leaves no ASCII whitespace at either end |
| Text.StripEmpty | backend/scheduling_data_structures.py:25-27 | a stripped text is empty exactly when the text was all whitespace |
| Text.RStripChar | backend/scheduling_data_structures.py:38 | `rstrip(',')` removes only trailing commas, and the result does not end in one |
| Text.Split | backend/scheduling_algorithm.py:10 | `split(sep)` gives at least one part, no part holds the separator, and joining the parts with it gives the text back |
| Text.SplitJoin | backend/scheduling_algorithm.py:24 | splitting a join of separator-free parts returns those parts |
| Text.SplitWs | backend/scheduling_algorithm.py:37 | `split()` yields non-empty tokens without whitespace |
| Text.SplitWsJoin | backend/scheduling_algorithm.py:37 | `split()` of tokens joined by single spaces returns the tokens |
| Text.ParseInt | backend/scheduling_algorithm.py:22 | `int()` succeeds exactly on an optionally signed run of ASCII digits |
| Text.ParseIntToString | backend/scheduling_algorithm.py:22 | `int(str(n)) == n` for every integer |
| Text.ContainsOccurs | backend/scheduling_data_structures.py:29 | the substring test holds exactly when the word occurs at some position |
| Dicts.Get | backend/scheduling_algorithm.py:83 | a lookup misses exactly when the key is absent, and a hit returns the stored value |
| Dicts.Put | backend/scheduling_algorithm.py:22 | assignment stores the value and leaves other keys alone; an existing key keeps its position, while a new key is appended |
| Algorithm.ParseLines1Append | backend/scheduling_algorithm.py:12-26 | the line loop is a fold: reading `a + b` is reading `a` and then `b` from the state it left, and an error stops it |
| Algorithm.PreambleIgnored | backend/scheduling_algorithm.py:11-26 | lines before the first section header change nothing |
| Algorithm.HeaderLine | backend/scheduling_algorithm.py:13-19 | a line that strips to `rooms`, `courses` or `times` switches to that section and keeps the data, whatever whitespace surrounds the word |
| Algorithm.RoomLineEntry | backend/scheduling_algorithm.py:20-22 | a `name : cap` line yields the stripped name and the integer capacity |
| Algorithm.RoomLinesParse | backend/scheduling_algorithm.py:20-22 | consecutive room lines with new names add their entries in order |
| Algorithm.ListLine | backend/scheduling_algorithm.py:23-26 | in the courses or times section a line replaces that list with its raw comma split |
| Algorithm.ListSectionsParse | backend/scheduling_algorithm.py:14-26 | a courses block followed by a times block sets both lists |
| Algorithm.ParseFile1 | backend/scheduling_algorithm.py:4-28 | `parse_file1` itself; it carries no contract of its own, and what it promises is stated by ParseLines1Append, PreambleIgnored, HeaderLine, RoomLineEntry, ListLine and ParseFile1RoundTrip |
| Algorithm.ParseFile1RoundTrip | backend/scheduling_algorithm.py:4-28 | parsing a rendered file 1 gives back its rooms, courses and times |
| Algorithm.ParseLines2 | backend/scheduling_algorithm.py:36-44 | the line loop fails exactly when some line fails |
| Algorithm.ParseFile2 | backend/scheduling_algorithm.py:31-46 | `parse_file2` fails exactly when some line of the stripped text fails |
| Algorithm.FirstBadLineFails | backend/scheduling_algorithm.py:36-40 | after lines that parse, the first failing line ends the file with its own error, whatever follows |
| Algorithm.ParseLines2Fail | backend/scheduling_algorithm.py:36-39 | the first bad line ends `parse_file2` with that line's error |
| Algorithm.ParseLines2Next | backend/scheduling_algorithm.py:36-44 | a good line is stored under its course, and a repeated course overwrites the earlier one |
| Algorithm.CourseLine | backend/scheduling_algorithm.py:37-40 | a line fails exactly when it has fewer than two tokens (missing token) or its second token is not an integer literal (not an integer); otherwise the course is token 0, the enrollment is the value of token 1, and the preferences are the remaining tokens |
| Algorithm.NonIntegerLineFails | backend/scheduling_algorithm.py:36-39 | after good lines, a line whose second token is not an integer fails the whole file with that token's error, whatever follows |
| Algorithm.ShortLineFails | backend/scheduling_algorithm.py:37-38 | after good lines, a line with fewer than two tokens fails with a missing token |
| Algorithm.BlankFile2Fails | backend/scheduling_algorithm.py:35-38 | an all-blank file 2 fails, because its one empty line has no tokens |
| Algorithm.CourseTextParses | backend/scheduling_algorithm.py:37-44 | a rendered course line reads back as course, enrollment and preferences |
| Algorithm.CourseTextsParse | backend/scheduling_algorithm.py:36-44 | rendered lines with distinct courses add all entries in order |
| Algorithm.ParseFile2RoundTrip | backend/scheduling_algorithm.py:31-46 | parsing a rendered file 2 gives back every course's details |
| Validation.RoomIssues | backend/scheduling_algorithm.py:54-56 | one issue per room outside 10..300 and no other, none exactly when all rooms are in range |
| Validation.CourseIssues | backend/scheduling_algorithm.py:59-63 | an issue for each course not `cs` plus digits and one for each enrollment outside 10..300; none exactly when all hold |
| Validation.CourseIssueOrder | backend/scheduling_algorithm.py:60-63 | for one course the number issue comes before the enrollment issue |
| Validation.TimeIssues | backend/scheduling_algorithm.py:66-69 | one issue per time not among the eight fixed slots; none exactly when all are known |
| Validation.ValidateInputs | backend/scheduling_algorithm.py:50-71 | the errors are empty exactly when every rule holds, one message per issue in rooms, courses, times order |
| Validation.RoomIssuesAppend | backend/scheduling_algorithm.py:54-56 | room errors follow the room order |
| Validation.CourseIssuesAppend | backend/scheduling_algorithm.py:59-63 | course errors follow the course order |
| Validation.TimeIssuesAppend | backend/scheduling_algorithm.py:67-69 | time errors follow the time order |
| Validation.MessageKindOf | backend/scheduling_algorithm.py:56-69 | each message's opening words tell which rule it reports |
| Scheduler.InitialUsage | backend/scheduling_algorithm.py:79 | every listed time starts with no rooms taken |
| Scheduler.FirstRoom | backend/scheduling_algorithm.py:96-97 | the chosen room is the first in dict order that is big enough and free; none means no room fits |
| Scheduler.FirstTime | backend/scheduling_algorithm.py:92-105 | the chosen preference is the first one that is a known time with a fitting room |
| Scheduler.Place | backend/scheduling_algorithm.py:92-102 | a placement is at a preferred known time, in a free room big enough; none exactly when no preference can host the course |
| Scheduler.PlaceFirstFit | backend/scheduling_algorithm.py:92-105 | the placement uses the earliest usable preference and the first fitting room at it |
| Scheduler.FindRoom | backend/scheduling_algorithm.py:96-102 | the room loop finds the first fitting room |
| Scheduler.FindSlot | backend/scheduling_algorithm.py:92-105 | the nested loops find the first-fit placement |
| Scheduler.ScheduleCourses | backend/scheduling_algorithm.py:75-113 | `schedule_courses` as a function of its inputs; it carries no contract of its own, and what it promises is stated by ScheduleCoursesLoop, ScheduleSafe, ScheduleCovers, ScheduleExclusive and ScheduleReportsUnplaceable |
| Scheduler.ScheduleCoursesLoop | backend/scheduling_algorithm.py:75-113 | the loop over courses computes the schedule and conflicts of the functional model |
| Scheduler.StepSafe | backend/scheduling_algorithm.py:92-102 | one course step keeps every placement valid and every room-time pair used at most once |
| Scheduler.RunSafe | backend/scheduling_algorithm.py:82-111 | the invariant holds after any number of courses |
| Scheduler.ScheduleSafe | backend/scheduling_algorithm.py:96-100 | each scheduled course sits at one of its preferences, a listed time, in a room at least its enrollment; no two share a room and time |
| Scheduler.StepCovered | backend/scheduling_algorithm.py:82-111 | one step keeps every handled course with details either scheduled or in conflict |
| Scheduler.ScheduleCovers | backend/scheduling_algorithm.py:82-111 | each listed course with details is scheduled or in conflict; courses without details appear in neither |
| Scheduler.StepExclusive | backend/scheduling_algorithm.py:82-111 | one step never both schedules and reports a course |
| Scheduler.ScheduleExclusive | backend/scheduling_algorithm.py:82-111 | with distinct course numbers, no reported course is also scheduled |
| Scheduler.ScheduleReportsUnplaceable | backend/scheduling_algorithm.py:92-111 | a course whose preferences are all unknown times, or too big for every room, is reported |
| Scheduler.ReportLines | backend/scheduling_algorithm.py:119-120 | one report line per conflict, in order |
| Scheduler.ConflictReport | backend/scheduling_algorithm.py:117-121 | the report is empty exactly when there are no conflicts |
| Scheduler.ConflictReportLines | backend/scheduling_algorithm.py:117-121 | splitting the report at line breaks gives the conflict lines back |
| Scheduler.ReportLinesCourses | backend/scheduling_algorithm.py:120 | each report line names its conflict's course |
| Pipeline.Main | backend/scheduling_algorithm.py:125-135 | `main` fails exactly when one of the parsers fails |
| Pipeline.MainRejectsInvalid | backend/scheduling_algorithm.py:129-135 | parsed input is scheduled exactly when it passes validation; a rejection is the errors header followed by the non-empty error list joined by line breaks; a schedule is the scheduler's result with its conflict report |
| Pipeline.ValidScheduleSafe | backend/scheduling_algorithm.py:130-135 | after validation every placement uses one of the eight slots and a room of 10..300 seats |
| Pipeline.MainScheduleSafe | backend/scheduling_algorithm.py:125-135 | whatever the pipeline schedules is at a known slot, in a room that fits, with no shared room and time |
| DataStructures.CleanItems | backend/scheduling_data_structures.py:38 | cleaning comma-free pieces just strips each one |
| DataStructures.NonBlank | backend/scheduling_data_structures.py:38 | the filter keeps only pieces of the input that are not blank |
| DataStructures.NonBlankAppend | backend/scheduling_data_structures.py:38 | the filter keeps the input order |
| DataStructures.KeepItems | backend/scheduling_data_structures.py:38-41 | the kept items are non-empty, stripped and comma-free |
| DataStructures.ListItemsRoundTrip | backend/scheduling_data_structures.py:38 | a comma-joined list of plain items reads back as the same items |
| DataStructures.RoomsOfNonBlank | backend/scheduling_data_structures.py:31-35 | the rooms are read from exactly the non-blank lines, in order |
| DataStructures.EntriesOfLength | backend/scheduling_data_structures.py:31-35 | one room per non-blank line |
| DataStructures.RoomLineRoom | backend/scheduling_data_structures.py:32-35 | a `name : cap` line gives the room with that number and capacity |
| DataStructures.RoomsOfRoundTrip | backend/scheduling_data_structures.py:29-36 | rendered room lines read back as the rooms |
| DataStructures.TimeSlots | backend/scheduling_data_structures.py:41 | one time slot per item, labelled by it |
| DataStructures.ParseSection | backend/scheduling_data_structures.py:24-42 | a section changes only the field of its own kind |
| DataStructures.BlankSection | backend/scheduling_data_structures.py:25-27 | a blank section is skipped |
| DataStructures.ListSectionNeedsSecondLine | backend/scheduling_data_structures.py:38 | a courses or times section without a second line fails |
| DataStructures.CoursesSectionIndependent | backend/scheduling_data_structures.py:37-39 | the courses read from a section do not depend on earlier sections |
| DataStructures.LaterSectionWins | backend/scheduling_data_structures.py:24-42 | of two courses sections the later one decides the course list |
| DataStructures.RoomsSectionReads | backend/scheduling_data_structures.py:29-36 | a section naming `rooms` reads rooms from all lines after its first |
| DataStructures.CoursesSectionReads | backend/scheduling_data_structures.py:37-39 | a `courses` section reads its list from the second line only |
| DataStructures.TimesSectionReads | backend/scheduling_data_structures.py:40-42 | a `times` section reads its slots from the second line only |
| DataStructures.RoomsSectionRoundTrip | backend/scheduling_data_structures.py:29-36 | a rendered rooms section sets exactly the rooms |
| DataStructures.CoursesSectionRoundTrip | backend/scheduling_data_structures.py:37-39 | a rendered courses section sets exactly the courses |
| DataStructures.TimesSectionRoundTrip | backend/scheduling_data_structures.py:40-42 | a rendered times section sets exactly the time slots |
| DataStructures.RenderInput1Sections | backend/scheduling_data_structures.py:21 | a rendered file 1 splits at `;` into its three sections |
| DataStructures.ThreeSections | backend/scheduling_data_structures.py:24-44 | the three rendered sections read in sequence give all three fields |
| DataStructures.ParseInputFile1 | backend/scheduling_data_structures.py:20-44 | `parse_input_file1` itself; it carries no contract of its own, and what it promises is stated by ParseSection, BlankSection, the *SectionReads lemmas, LaterSectionWins and ParseInputFile1RoundTrip |
| DataStructures.ParseInputFile1RoundTrip | backend/scheduling_data_structures.py:20-44 | parsing a rendered file 1 gives back its rooms, courses and time slots |
| DataStructures.PrefItemsAsWritten | backend/scheduling_data_structures.py:57 | the preferences as written: item k is comma piece k of the space-joined tokens, stripped; one item per piece, blank ones kept |
| DataStructures.PrefItems | backend/scheduling_data_structures.py:57 | corrected preferences: non-empty, stripped, comma-free items, at most one per comma piece |
| DataStructures.PrefItemsDropsBlanks | backend/scheduling_data_structures.py:57 | the corrected preferences are the as-written ones with the blank items left out, the rest in order |
| DataStructures.PrefItemsWithoutBlanks | backend/scheduling_data_structures.py:57 | when no as-written item is blank the two readings agree |
| DataStructures.CourseFields | backend/scheduling_data_structures.py:54-58 | a line of two or more tokens is a course exactly when its second token is an integer, with that number and enrollment; two tokens give no preferences, more give the as-written preferences of the rest without blanks |
| DataStructures.TokenRows | backend/scheduling_data_structures.py:50-53 | only lines with at least two tokens are kept, and each kept row is the token list of one of the lines |
| DataStructures.TokenRowsAppend | backend/scheduling_data_structures.py:50-53 | rows are found line by line, in order |
| DataStructures.TokenRowsSingle | backend/scheduling_data_structures.py:51-53 | a line gives its token row exactly when it has two or more tokens |
| DataStructures.CoursesOfRows | backend/scheduling_data_structures.py:50-58 | the courses are read from exactly the lines with two or more tokens |
| DataStructures.FieldsOfLength | backend/scheduling_data_structures.py:50-58 | one course per kept line |
| DataStructures.HeaderIgnored | backend/scheduling_data_structures.py:47 | the first line is skipped whatever it says |
| DataStructures.HeaderOnly | backend/scheduling_data_structures.py:47 | a file of one line has no courses |
| DataStructures.PrefItemsAsWrittenOfTokens | backend/scheduling_data_structures.py:57 | preferences written as `p1, p2, ...` read back as written |
| DataStructures.PrefItemsOfTokens | backend/scheduling_data_structures.py:57 | ... and read back by the corrected reading too |
| DataStructures.CourseOfRoundTrip | backend/scheduling_data_structures.py:51-58 | a rendered course line reads back as the course |
| DataStructures.CoursesOfRoundTrip | backend/scheduling_data_structures.py:50-60 | rendered course lines read back as the courses, in order |
| DataStructures.ParseInputFile2RoundTrip | backend/scheduling_data_structures.py:46-60 | parsing a header line followed by rendered courses gives back the courses |
| DataStructures.CourseOf | backend/scheduling_data_structures.py:50-58 | a line is skipped exactly when it has fewer than two tokens and fails exactly when its second token is no integer literal (with that token's error); otherwise the course is token 0 with the value of token 1, and the preferences are the as-written ones without blanks when there are more than two tokens, else none |
| DataStructures.CoursesOf | backend/scheduling_data_structures.py:50-60 | the body fails exactly when some line fails, and otherwise yields at most one course per line |
| DataStructures.ParseInputFile2 | backend/scheduling_data_structures.py:46-60 | with the corrected preference reading: fails exactly when some line after the first fails, and yields fewer courses than lines |
| DataStructures.CourseOfAsWritten | backend/scheduling_data_structures.py:50-58 | a line is skipped exactly when it has fewer than two tokens and fails exactly when its second token is no integer literal (with that token's error); otherwise the course is token 0 with the value of token 1, and the preferences are PrefItemsAsWritten of the remaining tokens when there are more than two, else none; the preferences are stripped and comma-free |
| DataStructures.CoursesOfAsWritten | backend/scheduling_data_structures.py:50-60 | as written: the body fails exactly when some line fails, and otherwise yields at most one course per line |
| DataStructures.ParseInputFile2AsWritten | backend/scheduling_data_structures.py:46-60 | `parse_input_file2` exactly as written: fails exactly when some line after the first fails, and yields fewer courses than lines |
| DataStructures.CourseOfAsWrittenRoundTrip | backend/scheduling_data_structures.py:51-58 | a rendered course line reads back as the course under the source's own reading |
| DataStructures.CoursesOfAsWrittenRoundTrip | backend/scheduling_data_structures.py:50-60 | rendered course lines read back as the courses, in order, under the source's own reading |
| DataStructures.ParseInputFile2AsWrittenRoundTrip | backend/scheduling_data_structures.py:46-60 | `parse_input_file2` as written reads back a header line followed by rendered courses |
| DataStructures.CoursesOfAsWrittenClean | backend/scheduling_data_structures.py:50-60 | every course the as-written loop reads has stripped, comma-free preferences |
| DataStructures.CourseOfDropsBlanks | backend/scheduling_data_structures.py:50-58 | a line read with the corrected preferences is the line read as written with its blank preferences left out; skips and errors agree |
| DataStructures.CoursesOfDropsBlanks | backend/scheduling_data_structures.py:50-60 | the same for every line of a file body |
| DataStructures.ParseInputFile2DropsBlanks | backend/scheduling_data_structures.py:46-60 | `parse_input_file2` with corrected preferences is the as-written result with every blank preference left out |
| DataStructures.ParseInputFile2WithoutBlanks | backend/scheduling_data_structures.py:46-60 | where the as-written result has no blank preference the two readings give the same courses |
| DataStructures.TrailingCommaAsWritten | backend/scheduling_data_structures.py:57 | as written, a trailing comma adds an empty preference |
| DataStructures.TrailingCommaCorrected | backend/scheduling_data_structures.py:57 | corrected, a trailing comma adds nothing |
| DataStructures.TrailingCommaLine | backend/scheduling_data_structures.py:51-58 | the line `n e t,` reads as preferences `[t, ""]` as written and `[t]` corrected |
| DataValidation.TimeLabels | backend/scheduling_data_structures.py:84 | the valid times are the slots' labels, in order |
| DataValidation.SectionIssues | backend/scheduling_data_structures.py:65-69 | a missing-section issue exactly for each absent section |
| DataValidation.RoomIssues | backend/scheduling_data_structures.py:72-76 | an issue for each capacity outside 1..300 and each number not matching `^\d+$`; none exactly when every room passes |
| DataValidation.CourseIssues | backend/scheduling_data_structures.py:79-82 | one issue per file-2 course missing from file 1; none exactly when all are listed |
| DataValidation.PrefIssue | backend/scheduling_data_structures.py:86-88 | the issues name exactly the preferences that are no time label, and there are none exactly when all are |
| DataValidation.PrefIssueAppend | backend/scheduling_data_structures.py:86-88 | preferences are checked one by one: a list's issues are its parts' issues in order, so a repeat is reported again |
| DataValidation.PrefIssueSingle | backend/scheduling_data_structures.py:87-88 | one preference gives one issue exactly when it is no time label |
| DataValidation.PrefIssues | backend/scheduling_data_structures.py:85-88 | every unknown preference of every course is reported, and only those |
| DataValidation.ValidateInputData | backend/scheduling_data_structures.py:62-91 | the errors are empty exactly when all sections exist, every room passes, every course is known and every preference is a time label |
| DataValidation.Reported | backend/scheduling_data_structures.py:62-91 | every issue found appears as its message |
| DataValidation.MissingRoomsFirst | backend/scheduling_data_structures.py:65-69 | a missing rooms section is the first error |
| DataValidation.SectionsFirst | backend/scheduling_data_structures.py:65-91 | missing-section errors come before all others |
| DataValidation.RoomIssuesAppend | backend/scheduling_data_structures.py:72-76 | room errors follow the room order |
| DataValidation.CourseIssuesAppend | backend/scheduling_data_structures.py:80-82 | course errors follow the file-2 order |
| DataValidation.PrefIssuesAppend | backend/scheduling_data_structures.py:85-88 | preference errors follow the file-2 order |
| DataValidation.UnknownPrefReported | backend/scheduling_data_structures.py:85-88 | a preference that is no time label is reported with its course |
| DataValidation.RoomNumberTrailingBreak | backend/scheduling_data_structures.py:75 | the regular expression accepts digits followed by one line break |
| DataValidation.EmptyPrefMessage | backend/scheduling_data_structures.py:88 | an empty preference gives a message with two spaces in a row |
| DataValidation.TrailingCommaReported | backend/scheduling_data_structures.py:57 | as written, a trailing comma leads to an invalid-time error for the course |
| DataValidation.TrailingCommaAccepted | backend/scheduling_data_structures.py:57 | corrected, the same line raises no preference error |
| LexOrder.SortStrings | frontend/src/app/schedula/page.jsx:102-103 | `sort()` gives an ordered permutation |
| LexOrder.Dedup | frontend/src/app/schedula/page.jsx:102-103 | `Array.from(new Set(xs))` has no repeats and the same values |
| LexOrder.DistinctPermutation | frontend/src/app/schedula/page.jsx:102-103 | sorting keeps the values distinct |
| LexOrder.StrictlySortedUnique | frontend/src/app/schedula/page.jsx:102-103 | a strictly increasing list is determined by its values |
| ScheduleGrid.RoomColumn | frontend/src/app/schedula/page.jsx:102 | `schedule.map(item => item.room)` |
| ScheduleGrid.TimeColumn | frontend/src/app/schedula/page.jsx:103 | `schedule.map(item => item.time)` |
| ScheduleGrid.Axis | frontend/src/app/schedula/page.jsx:102-103 | an axis is strictly increasing and holds exactly the input values |
| ScheduleGrid.Find | frontend/src/app/schedula/page.jsx:108 | `find` returns an item of the schedule at the room and time |
| ScheduleGrid.FindFirst | frontend/src/app/schedula/page.jsx:108 | `find` returns the first matching item |
| ScheduleGrid.FindNone | frontend/src/app/schedula/page.jsx:108 | `find` returns nothing exactly when no item matches |
| ScheduleGrid.CellFirst | frontend/src/app/schedula/page.jsx:108-109 | a cell holds the course of the first item at its room and time |
| ScheduleGrid.CellEmpty | frontend/src/app/schedula/page.jsx:108-109 | a cell with no matching item holds `''` |
| ScheduleGrid.LaterItemsIgnored | frontend/src/app/schedula/page.jsx:108-109 | later duplicates never override a cell |
| ScheduleGrid.FillContents | frontend/src/app/schedula/page.jsx:107-110 | the time loop adds one key per time, holding its cell, and keeps other keys |
| ScheduleGrid.RowContents | frontend/src/app/schedula/page.jsx:105-111 | a row has the `room` key and every time; `room` holds the room unless a time has that name |
| ScheduleGrid.Rows | frontend/src/app/schedula/page.jsx:105-112 | one row per room, in axis order |
| ScheduleGrid.FormatScheduleGrid | frontend/src/app/schedula/page.jsx:99-115 | no grid exactly when there is no schedule |
| ScheduleGrid.GridAxes | frontend/src/app/schedula/page.jsx:102-103 | rooms and times are strictly increasing and list exactly the values that occur |
| ScheduleGrid.GridCells | frontend/src/app/schedula/page.jsx:105-112 | one row per room; each time column holds that room's cell |
| ScheduleGrid.AxesIgnoreOrder | frontend/src/app/schedula/page.jsx:102-103 | reordering the schedule does not change the axes |
| ScheduleGrid.EmptyScheduleGrid | frontend/src/app/schedula/page.jsx:99-114 | an empty schedule gives an empty grid and empty axes |
| Export.ExportSchedule | frontend/src/app/schedula/page.jsx:119-125 | no text without a schedule; otherwise the header then one line per item, which a CSV reader reads back when fields hold no comma or line break |
| Export.CsvLinesSnoc | frontend/src/app/schedula/page.jsx:123-125 | each loop round appends exactly that item's line |
| Export.AppendLinesConcat | frontend/src/app/schedula/page.jsx:122-125 | appending line by line equals the header followed by all lines |
| Export.ReadRowText | frontend/src/app/schedula/page.jsx:124 | a line of plain fields reads back as its item |
| Export.CsvTextLines | frontend/src/app/schedula/page.jsx:122-125 | the text is the header line, then one line per item in order, each ended by a line break |
| Export.ExportRoundTrip | frontend/src/app/schedula/page.jsx:122-125 | reading the exported text gives back the schedule |
| Export.CommaInCourseBreaksRow | frontend/src/app/schedula/page.jsx:124 | with no quoting, a comma in a course name gives a four-field line |
| Export.TemplateEnds | frontend/src/app/schedula/page.jsx:59-64 | template 1 ends with `;` and has no final line break; template 2 ends with a line break |

## Left out

- Browser effects are not modelled:
  - the Flask routes in `backend/app.py`;
  - file upload, `fetch` and React state;
  - the Blob download and the login page.
  The page's functions take the schedule as a parameter, and the exporter returns its text.
- The pandas `DataFrame` that `main` builds is not modelled; `Pipeline.Main` returns the schedule itself.
- `post_grad_courses` in `schedule_courses` is computed but never used, so it is not modelled.
- `validate_inputs` takes `courses` without using it, and the model ignores it too.
- Whitespace is Python's ASCII whitespace, for both `strip()` and `split()`.
- `int()` accepts an optional sign and ASCII digits. Underscores and non-ASCII digits are not modelled.
- `\d` in the room-number pattern and `str.isdigit()` in the course-number check are modelled as ASCII digits only. Python accepts other Unicode digits in both.
- JavaScript's `sort()` compares UTF-16 code units; the model compares characters. The two orders agree below U+10000.
- Python exceptions are `Failure` values carrying the failing text. How the caller reacts to them is not modelled.
- DataStructures.ParseInputFile1RoundTrip: holds only for courses text that does not contain `rooms`, and times text that contains neither `rooms` nor `courses`. The source picks a section's kind by substring, so other lists read as a different section.
- DataStructures.ParseInputFile2RoundTrip: courses are rendered as `number enrollment p1, p2, ...`, the template's way of writing preferences, but with one space between the columns. The template's wider column padding is not covered. The same holds for DataStructures.ParseInputFile2AsWrittenRoundTrip, its counterpart for the source's own reading.
- ScheduleGrid.Item: every field is a string. A room code that is always numeric behaves as its decimal text. Two behaviours of mixed or missing values are not modelled. `new Set` and `===` keep the number `101` apart from the text `"101"` (page.jsx:102 and 108). A missing field is `undefined`: `sort()` puts it last, and the template literal writes it out as the text `undefined` (page.jsx:102-103 and 124). Export.RowText shares this abstraction.
- Algorithm.ParseFile1RoundTrip: holds only for lists whose joined line has no whitespace at either end and is not a section word, because `parse_file1` strips each line before it splits it. Both lists must also be non-empty, and the joined times line must be non-empty, because the final `strip()` of the content removes an empty last line.
- Export.TemplateEnds: states only how each template ends. Neither template is run through a parser in the model. Two consequences are read off the source but not proved:
  - template 1's `250 ;` line would make `parse_file1` fail in `int()`;
  - template 2's header line would make `parse_file2` fail in `int()`.
- DataStructures.CourseFields: uses the corrected preference reading (see Findings), so its preferences are the as-written ones with blank items left out. `DataStructures.CourseOfAsWritten` and `DataStructures.ParseInputFile2AsWritten` read exactly as the source does; `DataStructures.ParseInputFile2DropsBlanks` relates the two.
- DataStructures.PrefItems: drops blank comma pieces, which `backend/scheduling_data_structures.py:57` keeps as empty preferences. `DataStructures.PrefItemsAsWritten` is that line's own reading, and `DataStructures.PrefItemsDropsBlanks` relates the two.

## Findings

| source | as written | input that shows it | evidently intended | confidence | as-written member | corrected member |
|---|---|---|---|---|---|---|
| backend/scheduling_data_structures.py:57 | the preference tokens are joined and split on `,`, and every piece is kept, so a trailing comma yields an empty preference `""`; `validate_input_data` then reports `Invalid time preference  for course cs101` | the file-2 line `cs101 50 MWF9,` | drop empty pieces, as the comment on line 56 and the `.rstrip(',')` that has no effect after splitting suggest, and as lines 38 and 41 do for file 1, giving preferences `["MWF9"]` | not executed | DataStructures.TrailingCommaAsWritten, DataStructures.CourseOfAsWritten, DataStructures.ParseInputFile2DropsBlanks, DataValidation.TrailingCommaReported | DataStructures.TrailingCommaCorrected, DataStructures.TrailingCommaLine, DataValidation.TrailingCommaAccepted |
