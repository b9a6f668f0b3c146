/** `validate_input_data` of `backend/scheduling_data_structures.py`: checks
    the file-1 dict and the file-2 courses against each other.  Errors come
    out section by section (`rooms`, `courses`, `times`), then room by room
    (capacity before number format), then course by course for unknown
    course numbers, then course by course and preference by preference for
    unknown time labels.  A section that is missing counts as empty for the
    later checks. */
module DataValidation {
  import opened Wrappers
  import opened Text
  import opened DataStructures
  import opened Seqs

  const MinCapacity := 1
  const MaxCapacity := 300

  predicate CapacityOk(capacity: int) {
    MinCapacity <= capacity <= MaxCapacity
  }

  /** `re.match(r'^\d+$', number)`: one or more digits, where `$` also
      accepts a single line break after the last digit. */
  predicate RoomNumberOk(number: string) {
    IsDigits(number) || (|number| >= 2 && number[|number| - 1] == '\n' && IsDigits(number[..|number| - 1]))
  }

  /** The regular expression's `$` lets one trailing line break through,
      although such a number is not all digits. This is a fact about the
      pattern alone: `parse_input_file1` strips every room number, so a
      number it reads never ends in a line break. */
  lemma RoomNumberTrailingBreak(digits: string)
    requires IsDigits(digits)
    ensures RoomNumberOk(digits + "\n") && !IsDigits(digits + "\n")
  {
    assert (digits + "\n")[..|digits|] == digits;
    assert !IsDigit((digits + "\n")[|digits|]);
  }

  /** One violated rule. */
  datatype DataIssue =
    | MissingSection(section: string)
    | CapacityOutOfRange(room: Room)
    | BadRoomNumber(room: Room)
    | UnknownCourse(course: Course)
    | UnknownTime(pref: string, course: Course)

  /** The error line the source appends for an issue. */
  function Message(issue: DataIssue): string {
    match issue
    case MissingSection(section) => "Missing " + section + " section in input file 1"
    case CapacityOutOfRange(room) =>
      "Classroom capacity out of range for room " + room.number + ": " + IntToString(room.capacity)
    case BadRoomNumber(room) => "Classroom number has wrong format: " + room.number
    case UnknownCourse(course) => "Course " + course.number + " in input file 2 not found in input file 1"
    case UnknownTime(pref, course) => "Invalid time preference " + pref + " for course " + course.number
  }

  /** The labels of the time slots, in order. */
  function TimeLabels(times: seq<TimeSlot>): (r: seq<string>)
    ensures |r| == |times|
    ensures forall k | 0 <= k < |r| :: r[k] == times[k].time
  {
    if times == [] then [] else [times[0].time] + TimeLabels(times[1..])
  }

  /** The missing sections, in the order `rooms`, `courses`, `times`. */
  function SectionIssues(data: InputData1): (r: seq<DataIssue>)
    ensures r == [] <==> data.rooms.Some? && data.courses.Some? && data.times.Some?
    ensures MissingSection("rooms") in r <==> data.rooms.None?
    ensures MissingSection("courses") in r <==> data.courses.None?
    ensures MissingSection("times") in r <==> data.times.None?
  {
    (if data.rooms.None? then [MissingSection("rooms")] else [])
    + (if data.courses.None? then [MissingSection("courses")] else [])
    + (if data.times.None? then [MissingSection("times")] else [])
  }

  function RoomIssue(room: Room): seq<DataIssue> {
    (if CapacityOk(room.capacity) then [] else [CapacityOutOfRange(room)])
    + (if RoomNumberOk(room.number) then [] else [BadRoomNumber(room)])
  }

  /** The capacity and number-format issues, room by room. */
  function RoomIssues(rooms: seq<Room>): (r: seq<DataIssue>)
    ensures |r| <= 2 * |rooms|
    ensures r == [] <==> forall i | 0 <= i < |rooms| :: CapacityOk(rooms[i].capacity) && RoomNumberOk(rooms[i].number)
    ensures forall i | 0 <= i < |rooms| :: !CapacityOk(rooms[i].capacity) ==> CapacityOutOfRange(rooms[i]) in r
    ensures forall i | 0 <= i < |rooms| :: !RoomNumberOk(rooms[i].number) ==> BadRoomNumber(rooms[i]) in r
    ensures forall k | 0 <= k < |r| ::
      || (r[k].CapacityOutOfRange? && r[k].room in rooms && !CapacityOk(r[k].room.capacity))
      || (r[k].BadRoomNumber? && r[k].room in rooms && !RoomNumberOk(r[k].room.number))
  {
    if rooms == [] then []
    else
      var rest := RoomIssues(rooms[1..]);
      assert forall i | 1 <= i < |rooms| :: rooms[i] == rooms[1..][i - 1];
      RoomIssue(rooms[0]) + rest
  }

  /** The file-2 courses whose number file 1 does not list, in order. */
  function CourseIssues(known: seq<string>, courses: seq<Course>): (r: seq<DataIssue>)
    ensures |r| <= |courses|
    ensures r == [] <==> forall i | 0 <= i < |courses| :: courses[i].number in known
    ensures forall i | 0 <= i < |courses| :: courses[i].number !in known ==> UnknownCourse(courses[i]) in r
    ensures forall k | 0 <= k < |r| :: r[k].UnknownCourse? && r[k].course in courses && r[k].course.number !in known
  {
    if courses == [] then []
    else
      var rest := CourseIssues(known, courses[1..]);
      assert forall i | 1 <= i < |courses| :: courses[i] == courses[1..][i - 1];
      (if courses[0].number in known then [] else [UnknownCourse(courses[0])]) + rest
  }

  /** The unknown preferences of one course, in order, repeats included. */
  function PrefIssue(labels: seq<string>, course: Course, prefs: seq<string>): (r: seq<DataIssue>)
    ensures |r| <= |prefs|
    ensures r == [] <==> forall j | 0 <= j < |prefs| :: prefs[j] in labels
    ensures forall j | 0 <= j < |prefs| :: prefs[j] !in labels ==> UnknownTime(prefs[j], course) in r
    ensures forall k | 0 <= k < |r| :: r[k].UnknownTime? && r[k].course == course && r[k].pref in prefs && r[k].pref !in labels
  {
    if prefs == [] then []
    else
      var rest := PrefIssue(labels, course, prefs[1..]);
      assert forall j | 1 <= j < |prefs| :: prefs[j] == prefs[1..][j - 1];
      (if prefs[0] in labels then [] else [UnknownTime(prefs[0], course)]) + rest
  }

  /** Preferences are checked one by one: the report of a list is the
      reports of its parts, in order, so every repeat is reported again. */
  lemma {:induction false} PrefIssueAppend(labels: seq<string>, course: Course, a: seq<string>, b: seq<string>)
    ensures PrefIssue(labels, course, a + b) == PrefIssue(labels, course, a) + PrefIssue(labels, course, b)
    decreases |a|
  {
    if a == [] {
      assert a + b == b;
    } else {
      assert (a + b)[1..] == a[1..] + b;
      assert (a + b)[0] == a[0];
      PrefIssueAppend(labels, course, a[1..], b);
      var front := if a[0] in labels then [] else [UnknownTime(a[0], course)];
      assert PrefIssue(labels, course, a) == front + PrefIssue(labels, course, a[1..]);
      assert PrefIssue(labels, course, a + b) == front + PrefIssue(labels, course, a[1..] + b);
      SeqAssoc(front, PrefIssue(labels, course, a[1..]), PrefIssue(labels, course, b));
    }
  }

  /** One preference is reported exactly when it is not a time label. */
  lemma PrefIssueSingle(labels: seq<string>, course: Course, pref: string)
    ensures PrefIssue(labels, course, [pref]) == if pref in labels then [] else [UnknownTime(pref, course)]
  {
    assert [pref][1..] == [];
  }

  /** Every course's unknown preferences, course by course. */
  function PrefIssues(labels: seq<string>, courses: seq<Course>): (r: seq<DataIssue>)
    ensures r == [] <==> forall i | 0 <= i < |courses| :: PrefsKnown(labels, courses[i])
    ensures forall i, j | 0 <= i < |courses| && 0 <= j < |courses[i].preferences| ::
      courses[i].preferences[j] !in labels ==> UnknownTime(courses[i].preferences[j], courses[i]) in r
    ensures forall k | 0 <= k < |r| :: r[k].UnknownTime? && r[k].course in courses && r[k].pref !in labels
  {
    if courses == [] then []
    else
      var rest := PrefIssues(labels, courses[1..]);
      assert forall i | 1 <= i < |courses| :: courses[i] == courses[1..][i - 1];
      PrefIssue(labels, courses[0], courses[0].preferences) + rest
  }

  predicate PrefsKnown(labels: seq<string>, course: Course) {
    forall j | 0 <= j < |course.preferences| :: course.preferences[j] in labels
  }

  /** Every issue, in the order the source reports them; a missing list is empty. */
  function DataIssues(data: InputData1, courses: seq<Course>): seq<DataIssue> {
    SectionIssues(data)
    + RoomIssues(data.rooms.GetOr([]))
    + CourseIssues(data.courses.GetOr([]), courses)
    + PrefIssues(TimeLabels(data.times.GetOr([])), courses)
  }

  /** The rules `validate_input_data` checks, stated directly. */
  ghost predicate DataValid(data: InputData1, courses: seq<Course>) {
    && data.rooms.Some? && data.courses.Some? && data.times.Some?
    && (forall i | 0 <= i < |data.rooms.value| ::
          CapacityOk(data.rooms.value[i].capacity) && RoomNumberOk(data.rooms.value[i].number))
    && (forall i | 0 <= i < |courses| :: courses[i].number in data.courses.value)
    && (forall i | 0 <= i < |courses| :: PrefsKnown(TimeLabels(data.times.value), courses[i]))
  }

  /** The error texts of `validate_input_data`, one per issue; the
      counterpart of `Validation.Messages` for this module's own issue type
      and wording. */
  function Messages(issues: seq<DataIssue>): (msgs: seq<string>)
    ensures |msgs| == |issues|
    ensures forall k | 0 <= k < |issues| :: msgs[k] == Message(issues[k])
  {
    if issues == [] then [] else [Message(issues[0])] + Messages(issues[1..])
  }

  /** `validate_input_data(file1_data, file2_data)`. */
  function ValidateInputData(data: InputData1, courses: seq<Course>): (errors: seq<string>)
    ensures errors == [] <==> DataValid(data, courses)
    ensures |errors| == |DataIssues(data, courses)|
    ensures forall k | 0 <= k < |errors| :: errors[k] == Message(DataIssues(data, courses)[k])
  {
    assert DataIssues(data, courses) == [] <==> DataValid(data, courses) by {
      NoIssuesValid(data, courses);
    }
    Messages(DataIssues(data, courses))
  }

  /** No issue is found exactly when every rule holds. */
  lemma NoIssuesValid(data: InputData1, courses: seq<Course>)
    ensures DataIssues(data, courses) == [] <==> DataValid(data, courses)
  {
    var a, b := SectionIssues(data), RoomIssues(data.rooms.GetOr([]));
    var c, d := CourseIssues(data.courses.GetOr([]), courses), PrefIssues(TimeLabels(data.times.GetOr([])), courses);
    assert DataIssues(data, courses) == a + b + c + d;
    assert a + b + c + d == [] <==> a == [] && b == [] && c == [] && d == [] by {
      assert |a + b + c + d| == |a| + |b| + |c| + |d|;
    }
  }

  /** Every issue found shows up as its message among the errors. */
  lemma Reported(data: InputData1, courses: seq<Course>, issue: DataIssue)
    requires issue in DataIssues(data, courses)
    ensures Message(issue) in ValidateInputData(data, courses)
  {
    var k :| 0 <= k < |DataIssues(data, courses)| && DataIssues(data, courses)[k] == issue;
    assert ValidateInputData(data, courses)[k] == Message(issue);
  }

  /** A missing `rooms` section is the first error reported. */
  lemma MissingRoomsFirst(data: InputData1, courses: seq<Course>)
    requires data.rooms.None?
    ensures ValidateInputData(data, courses)[0] == "Missing rooms section in input file 1"
  {
    assert DataIssues(data, courses)[0] == MissingSection("rooms");
  }

  /** Section checks come before every other check: with all sections
      present, a missing `rooms` message cannot appear, and otherwise the
      errors start with one message per missing section. */
  lemma SectionsFirst(data: InputData1, courses: seq<Course>)
    ensures var n := |SectionIssues(data)|;
      n <= |ValidateInputData(data, courses)|
      && forall k | 0 <= k < n :: ValidateInputData(data, courses)[k] == Message(SectionIssues(data)[k])
  {
    var n := |SectionIssues(data)|;
    forall k | 0 <= k < n
      ensures DataIssues(data, courses)[k] == SectionIssues(data)[k]
    {
    }
  }

  lemma {:induction false} RoomIssuesAppend(a: seq<Room>, b: seq<Room>)
    ensures RoomIssues(a + b) == RoomIssues(a) + RoomIssues(b)
  {
    if a == [] {
      assert a + b == b;
    } else {
      assert (a + b)[1..] == a[1..] + b;
      assert (a + b)[0] == a[0];
      RoomIssuesAppend(a[1..], b);
      var front := RoomIssue(a[0]);
      assert RoomIssues(a) == front + RoomIssues(a[1..]);
      assert RoomIssues(a + b) == front + RoomIssues(a[1..] + b);
      SeqAssoc(front, RoomIssues(a[1..]), RoomIssues(b));
    }
  }

  lemma {:induction false} CourseIssuesAppend(known: seq<string>, a: seq<Course>, b: seq<Course>)
    ensures CourseIssues(known, a + b) == CourseIssues(known, a) + CourseIssues(known, b)
  {
    if a == [] {
      assert a + b == b;
    } else {
      assert (a + b)[1..] == a[1..] + b;
      assert (a + b)[0] == a[0];
      CourseIssuesAppend(known, a[1..], b);
      var front := if a[0].number in known then [] else [UnknownCourse(a[0])];
      assert CourseIssues(known, a) == front + CourseIssues(known, a[1..]);
      assert CourseIssues(known, a + b) == front + CourseIssues(known, a[1..] + b);
      SeqAssoc(front, CourseIssues(known, a[1..]), CourseIssues(known, b));
    }
  }

  lemma {:induction false} PrefIssuesAppend(labels: seq<string>, a: seq<Course>, b: seq<Course>)
    ensures PrefIssues(labels, a + b) == PrefIssues(labels, a) + PrefIssues(labels, b)
  {
    if a == [] {
      assert a + b == b;
    } else {
      assert (a + b)[1..] == a[1..] + b;
      assert (a + b)[0] == a[0];
      PrefIssuesAppend(labels, a[1..], b);
      var front := PrefIssue(labels, a[0], a[0].preferences);
      assert PrefIssues(labels, a) == front + PrefIssues(labels, a[1..]);
      assert PrefIssues(labels, a + b) == front + PrefIssues(labels, a[1..] + b);
      SeqAssoc(front, PrefIssues(labels, a[1..]), PrefIssues(labels, b));
    }
  }

  /** A preference that names no time slot is reported by its message. */
  lemma UnknownPrefReported(data: InputData1, course: Course, j: int)
    requires 0 <= j < |course.preferences|
    requires course.preferences[j] !in TimeLabels(data.times.GetOr([]))
    ensures Message(UnknownTime(course.preferences[j], course)) in ValidateInputData(data, [course])
  {
    var issue := UnknownTime(course.preferences[j], course);
    assert issue in PrefIssues(TimeLabels(data.times.GetOr([])), [course]);
    Reported(data, [course], issue);
  }

  /** The message for an empty preference: two spaces where the time would be. */
  lemma EmptyPrefMessage(course: Course)
    ensures Message(UnknownTime("", course)) == "Invalid time preference  for course " + course.number
  {
    EmptySuffix("Invalid time preference ");
  }

  /** The trailing-comma line `number e t,` read as written gives an empty
      preference, which is then reported as an invalid time even though `t`
      itself is a known slot. */
  lemma TrailingCommaReported(data: InputData1, number: string, e: int, t: string)
    requires IsToken(number) && IsToken(t) && ',' !in t
    requires "" !in TimeLabels(data.times.GetOr([]))
    ensures var line := Join([number, IntToString(e), t + ","], " ");
      && CourseOfAsWritten(line).Success? && CourseOfAsWritten(line).value.Some?
      && "Invalid time preference  for course " + number
           in ValidateInputData(data, [CourseOfAsWritten(line).value.value])
  {
    var line := Join([number, IntToString(e), t + ","], " ");
    TrailingCommaLine(number, e, t);
    var bad := Course(number, e, [t, ""]);
    assert Message(UnknownTime("", bad)) in ValidateInputData(data, [bad]) by {
      assert bad.preferences[1] == "";
      UnknownPrefReported(data, bad, 1);
    }
    EmptyPrefMessage(bad);
  }

  /** The corrected reading of the same line reports no invalid time. */
  lemma {:induction false} TrailingCommaAccepted(data: InputData1, number: string, e: int, t: string)
    requires IsToken(number) && IsToken(t) && ',' !in t
    requires t in TimeLabels(data.times.GetOr([]))
    ensures var line := Join([number, IntToString(e), t + ","], " ");
      && CourseOf(line).Success? && CourseOf(line).value.Some?
      && PrefIssues(TimeLabels(data.times.GetOr([])), [CourseOf(line).value.value]) == []
  {
    var labels := TimeLabels(data.times.GetOr([]));
    var c := Course(number, e, [t]);
    assert CourseOf(Join([number, IntToString(e), t + ","], " ")) == Success(Some(c)) by {
      TrailingCommaLine(number, e, t);
    }
    assert PrefIssues(labels, [c]) == [] by {
      assert PrefsKnown(labels, c);
    }
  }
}
