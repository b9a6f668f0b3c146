/** `validate_inputs` of `backend/scheduling_algorithm.py`: every room
    capacity and every enrollment must lie in 10..300, every course name must
    be `cs` followed by digits, and every listed time must be one of the eight
    known slots.  Errors come out room by room, then course by course (name
    before enrollment), then time by time. */
module Validation {
  import opened Text
  import opened Dicts
  import opened Algorithm

  const MinSize := 10
  const MaxSize := 300

  /** The time slots the validator accepts, in the order the source lists them. */
  const KnownTimes: seq<string> := ["MWF9", "MWF10", "MWF11", "MWF2", "TT9", "TT10:30", "TT2", "TT3:30"]

  predicate SizeOk(n: int) {
    MinSize <= n <= MaxSize
  }

  /** `course.startswith("cs") and course[2:].isdigit()`. */
  predicate CourseNumberOk(course: string) {
    StartsWith(course, "cs") && IsDigits(course[2..])
  }

  /** One violated rule. */
  datatype Issue =
    | BadCapacity(room: string, capacity: int)
    | BadCourseNumber(course: string)
    | BadEnrollment(course: string, enrollment: int)
    | BadTime(time: string)

  /** The error line the source appends for an issue. */
  function Message(issue: Issue): string {
    match issue
    case BadCapacity(room, capacity) => "Room " + room + " has an invalid capacity: " + IntToString(capacity)
    case BadCourseNumber(course) => "Invalid course number: " + course
    case BadEnrollment(course, e) => "Invalid enrollment for course " + course + ": " + IntToString(e)
    case BadTime(time) => "Invalid time slot: " + time
  }

  function RoomIssue(entry: (string, int)): seq<Issue> {
    if SizeOk(entry.1) then [] else [BadCapacity(entry.0, entry.1)]
  }

  function CourseIssue(entry: (string, Details)): seq<Issue> {
    (if CourseNumberOk(entry.0) then [] else [BadCourseNumber(entry.0)])
    + (if SizeOk(entry.1.enrollment) then [] else [BadEnrollment(entry.0, entry.1.enrollment)])
  }

  function TimeIssue(time: string): seq<Issue> {
    if time in KnownTimes then [] else [BadTime(time)]
  }

  /** The capacity issues, in room order. */
  function RoomIssues(rooms: seq<(string, int)>): (r: seq<Issue>)
    ensures |r| <= |rooms|
    ensures r == [] <==> forall i | 0 <= i < |rooms| :: SizeOk(rooms[i].1)
    ensures forall i | 0 <= i < |rooms| :: !SizeOk(rooms[i].1) ==> BadCapacity(rooms[i].0, rooms[i].1) in r
    ensures forall k | 0 <= k < |r| :: r[k].BadCapacity? && (r[k].room, r[k].capacity) in rooms && !SizeOk(r[k].capacity)
  {
    if rooms == [] then []
    else
      var rest := RoomIssues(rooms[1..]);
      assert forall i | 1 <= i < |rooms| :: rooms[i] == rooms[1..][i - 1];
      RoomIssue(rooms[0]) + rest
  }

  /** The course-number and enrollment issues, in course order. */
  function CourseIssues(courses: seq<(string, Details)>): (r: seq<Issue>)
    ensures |r| <= 2 * |courses|
    ensures r == [] <==> forall i | 0 <= i < |courses| :: CourseNumberOk(courses[i].0) && SizeOk(courses[i].1.enrollment)
    ensures forall i | 0 <= i < |courses| :: !CourseNumberOk(courses[i].0) ==> BadCourseNumber(courses[i].0) in r
    ensures forall i | 0 <= i < |courses| ::
      !SizeOk(courses[i].1.enrollment) ==> BadEnrollment(courses[i].0, courses[i].1.enrollment) in r
    ensures forall k | 0 <= k < |r| :: r[k].BadCourseNumber? || r[k].BadEnrollment?
  {
    if courses == [] then []
    else
      var rest := CourseIssues(courses[1..]);
      assert forall i | 1 <= i < |courses| :: courses[i] == courses[1..][i - 1];
      CourseIssue(courses[0]) + rest
  }

  /** The unknown time slots, in list order, repeats included. */
  function TimeIssues(times: seq<string>): (r: seq<Issue>)
    ensures |r| <= |times|
    ensures r == [] <==> forall i | 0 <= i < |times| :: times[i] in KnownTimes
    ensures forall i | 0 <= i < |times| :: times[i] !in KnownTimes ==> BadTime(times[i]) in r
    ensures forall k | 0 <= k < |r| :: r[k].BadTime? && r[k].time in times && r[k].time !in KnownTimes
  {
    if times == [] then []
    else
      var rest := TimeIssues(times[1..]);
      assert forall i | 1 <= i < |times| :: times[i] == times[1..][i - 1];
      TimeIssue(times[0]) + rest
  }

  /** Every issue of the input, in the order the source reports them. */
  function Issues(rooms: seq<(string, int)>, times: seq<string>, prefs: seq<(string, Details)>): seq<Issue> {
    RoomIssues(rooms) + CourseIssues(prefs) + TimeIssues(times)
  }

  /** The rules `validate_inputs` checks, stated directly. */
  predicate InputsValid(rooms: seq<(string, int)>, times: seq<string>, prefs: seq<(string, Details)>) {
    && (forall i | 0 <= i < |rooms| :: SizeOk(rooms[i].1))
    && (forall i | 0 <= i < |prefs| :: CourseNumberOk(prefs[i].0) && SizeOk(prefs[i].1.enrollment))
    && (forall i | 0 <= i < |times| :: times[i] in KnownTimes)
  }

  /** The error texts of `validate_inputs`, one per issue. The validator of
      the second input format words its errors differently and keeps its own
      issue type, so `DataValidation` has a `Messages` of its own. */
  function Messages(issues: seq<Issue>): (msgs: seq<string>)
    ensures |msgs| == |issues|
    ensures forall k | 0 <= k < |issues| :: msgs[k] == Message(issues[k])
  {
    if issues == [] then [] else [Message(issues[0])] + Messages(issues[1..])
  }

  /** `validate_inputs(rooms, courses, times, course_preferences)`; the
      course list is not consulted. */
  function ValidateInputs(rooms: seq<(string, int)>, courses: seq<string>, times: seq<string>,
                          prefs: seq<(string, Details)>): (errors: seq<string>)
    ensures errors == [] <==> InputsValid(rooms, times, prefs)
    ensures |errors| == |Issues(rooms, times, prefs)|
    ensures forall k | 0 <= k < |errors| :: errors[k] == Message(Issues(rooms, times, prefs)[k])
  {
    Messages(Issues(rooms, times, prefs))
  }

  /** Errors are reported input by input: the issues of a concatenation are
      the issues of its parts, one after the other. */
  lemma {:induction false} RoomIssuesAppend(a: seq<(string, int)>, b: seq<(string, int)>)
    ensures RoomIssues(a + b) == RoomIssues(a) + RoomIssues(b)
    decreases |a|
  {
    if a == [] {
      assert a + b == b;
    } else {
      assert (a + b)[1..] == a[1..] + b;
      RoomIssuesAppend(a[1..], b);
    }
  }

  lemma {:induction false} CourseIssuesAppend(a: seq<(string, Details)>, b: seq<(string, Details)>)
    ensures CourseIssues(a + b) == CourseIssues(a) + CourseIssues(b)
    decreases |a|
  {
    if a == [] {
      assert a + b == b;
    } else {
      assert (a + b)[1..] == a[1..] + b;
      CourseIssuesAppend(a[1..], b);
    }
  }

  lemma {:induction false} TimeIssuesAppend(a: seq<string>, b: seq<string>)
    ensures TimeIssues(a + b) == TimeIssues(a) + TimeIssues(b)
    decreases |a|
  {
    if a == [] {
      assert a + b == b;
    } else {
      assert (a + b)[1..] == a[1..] + b;
      TimeIssuesAppend(a[1..], b);
    }
  }

  /** A single course yields its number error before its enrollment error. */
  lemma CourseIssueOrder(entry: (string, Details))
    ensures CourseIssues([entry]) ==
      (if CourseNumberOk(entry.0) then [] else [BadCourseNumber(entry.0)])
      + (if SizeOk(entry.1.enrollment) then [] else [BadEnrollment(entry.0, entry.1.enrollment)])
  {
    assert [entry][1..] == [];
  }

  /** Which rule an error line reports, read back from its wording. */
  function MessageKind(msg: string): int {
    if StartsWith(msg, "Room ") then 0
    else if StartsWith(msg, "Invalid course number: ") then 1
    else if StartsWith(msg, "Invalid enrollment for course ") then 2
    else if StartsWith(msg, "Invalid time slot: ") then 3
    else -1
  }

  function IssueKind(issue: Issue): int {
    match issue
    case BadCapacity(_, _) => 0
    case BadCourseNumber(_) => 1
    case BadEnrollment(_, _) => 2
    case BadTime(_) => 3
  }

  lemma PrefixOf(p: string, rest: string)
    ensures StartsWith(p + rest, p)
  {
    assert (p + rest)[..|p|] == p;
  }

  lemma PrefixChar(m: string, p: string, i: int)
    requires 0 <= i < |p|
    ensures StartsWith(m, p) ==> m[i] == p[i]
  {
    if StartsWith(m, p) {
      assert m[i] == m[..|p|][i];
    }
  }

  lemma CharAt(p: string, rest: string, i: int)
    requires 0 <= i < |p|
    ensures (p + rest)[i] == p[i]
  {
  }

  lemma KindOfCapacity(room: string, c: int)
    ensures MessageKind(Message(BadCapacity(room, c))) == 0
  {
    PrefixOf("Room ", room + " has an invalid capacity: " + IntToString(c));
    assert Message(BadCapacity(room, c)) == "Room " + (room + " has an invalid capacity: " + IntToString(c));
  }

  lemma KindOfCourseNumber(course: string)
    ensures MessageKind(Message(BadCourseNumber(course))) == 1
  {
    var m := Message(BadCourseNumber(course));
    PrefixOf("Invalid course number: ", course);
    CharAt("Invalid course number: ", course, 0);
    PrefixChar(m, "Room ", 0);
  }

  lemma KindOfEnrollment(course: string, e: int)
    ensures MessageKind(Message(BadEnrollment(course, e))) == 2
  {
    var m := Message(BadEnrollment(course, e));
    var rest := course + ": " + IntToString(e);
    assert m == "Invalid enrollment for course " + rest;
    PrefixOf("Invalid enrollment for course ", rest);
    CharAt("Invalid enrollment for course ", rest, 0);
    CharAt("Invalid enrollment for course ", rest, 8);
    PrefixChar(m, "Room ", 0);
    PrefixChar(m, "Invalid course number: ", 8);
  }

  lemma KindOfTime(time: string)
    ensures MessageKind(Message(BadTime(time))) == 3
  {
    var m := Message(BadTime(time));
    PrefixOf("Invalid time slot: ", time);
    CharAt("Invalid time slot: ", time, 0);
    CharAt("Invalid time slot: ", time, 8);
    PrefixChar(m, "Room ", 0);
    PrefixChar(m, "Invalid course number: ", 8);
    PrefixChar(m, "Invalid enrollment for course ", 8);
  }

  /** The four wordings are told apart by their fixed opening words. */
  lemma MessageKindOf(issue: Issue)
    ensures MessageKind(Message(issue)) == IssueKind(issue)
  {
    match issue
    case BadCapacity(room, c) => KindOfCapacity(room, c);
    case BadCourseNumber(course) => KindOfCourseNumber(course);
    case BadEnrollment(course, e) => KindOfEnrollment(course, e);
    case BadTime(time) => KindOfTime(time);
  }
}
