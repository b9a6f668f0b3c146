/** `schedule_courses` and `generate_conflict_report` of
    `backend/scheduling_algorithm.py`.

    Courses are taken in list order.  A course without details is skipped.
    Otherwise its preferred times are tried in order, skipping times that are
    not in the time list, and at each time the rooms are tried in dict order:
    the first room with enough capacity that is still free at that time gets
    the course.  A course that finds no room is reported as a conflict. */
module Scheduler {
  import opened Wrappers
  import opened Text
  import opened Dicts
  import opened Algorithm

  /** The (room, time) a course is placed at. */
  datatype Slot = Slot(room: string, time: string)

  const Reason := "Room capacity issues or time clashes"

  datatype Conflict = Conflict(course: string, reason: string)

  /** `available_times`: for each time of the list, the rooms already taken at that time. */
  type Usage = map<string, seq<string>>

  function InitialUsage(times: seq<string>): (u: Usage)
    ensures forall t :: t in u <==> t in times
    ensures forall t | t in u :: u[t] == []
  {
    map t | t in times :: []
  }

  /** A room can take a course of this size at a time when these rooms are taken. */
  predicate Fits(room: (string, int), enrollment: int, taken: seq<string>) {
    room.1 >= enrollment && room.0 !in taken
  }

  function FirstRoomFrom(rooms: seq<(string, int)>, enrollment: int, taken: seq<string>, j: nat): (r: Option<nat>)
    requires j <= |rooms|
    ensures r.Some? ==> j <= r.value < |rooms| && Fits(rooms[r.value], enrollment, taken)
    ensures r.Some? ==> forall k | j <= k < r.value :: !Fits(rooms[k], enrollment, taken)
    ensures r.None? ==> forall k | j <= k < |rooms| :: !Fits(rooms[k], enrollment, taken)
    decreases |rooms| - j
  {
    if j == |rooms| then None
    else if Fits(rooms[j], enrollment, taken) then Some(j)
    else FirstRoomFrom(rooms, enrollment, taken, j + 1)
  }

  /** Index of the first room, in dict order, that fits. */
  function FirstRoom(rooms: seq<(string, int)>, enrollment: int, taken: seq<string>): (r: Option<nat>)
    ensures r.Some? ==> r.value < |rooms| && Fits(rooms[r.value], enrollment, taken)
    ensures r.Some? ==> forall k | 0 <= k < r.value :: !Fits(rooms[k], enrollment, taken)
    ensures r.None? ==> forall k | 0 <= k < |rooms| :: !Fits(rooms[k], enrollment, taken)
  {
    FirstRoomFrom(rooms, enrollment, taken, 0)
  }

  /** A time of the list at which some room fits. */
  predicate CanHost(rooms: seq<(string, int)>, usage: Usage, enrollment: int, time: string) {
    time in usage && FirstRoom(rooms, enrollment, usage[time]).Some?
  }

  function FirstTimeFrom(rooms: seq<(string, int)>, usage: Usage, enrollment: int, prefs: seq<string>, p: nat): (r: Option<nat>)
    requires p <= |prefs|
    ensures r.Some? ==> p <= r.value < |prefs| && CanHost(rooms, usage, enrollment, prefs[r.value])
    ensures r.Some? ==> forall q | p <= q < r.value :: !CanHost(rooms, usage, enrollment, prefs[q])
    ensures r.None? ==> forall q | p <= q < |prefs| :: !CanHost(rooms, usage, enrollment, prefs[q])
    decreases |prefs| - p
  {
    if p == |prefs| then None
    else if CanHost(rooms, usage, enrollment, prefs[p]) then Some(p)
    else FirstTimeFrom(rooms, usage, enrollment, prefs, p + 1)
  }

  /** Index of the first preferred time at which some room fits. */
  function FirstTime(rooms: seq<(string, int)>, usage: Usage, enrollment: int, prefs: seq<string>): (r: Option<nat>)
    ensures r.Some? ==> r.value < |prefs| && CanHost(rooms, usage, enrollment, prefs[r.value])
    ensures r.Some? ==> forall q | 0 <= q < r.value :: !CanHost(rooms, usage, enrollment, prefs[q])
    ensures r.None? ==> forall q | 0 <= q < |prefs| :: !CanHost(rooms, usage, enrollment, prefs[q])
  {
    FirstTimeFrom(rooms, usage, enrollment, prefs, 0)
  }

  /** Where one course goes: the first usable preferred time, then the first room that fits there. */
  function Place(rooms: Dict<string, int>, usage: Usage, enrollment: int, prefs: seq<string>): (r: Option<Slot>)
    ensures r.None? <==> forall q | 0 <= q < |prefs| :: !CanHost(rooms, usage, enrollment, prefs[q])
    ensures r.Some? ==> r.value.time in prefs && r.value.time in usage && r.value.room !in usage[r.value.time]
    ensures r.Some? ==> Get(rooms, r.value.room).Some? && Get(rooms, r.value.room).value >= enrollment
  {
    match FirstTime(rooms, usage, enrollment, prefs)
    case None => None
    case Some(p) =>
      var time := prefs[p];
      var k := FirstRoom(rooms, enrollment, usage[time]).value;
      GetEntry(rooms, k);
      Some(Slot(rooms[k].0, time))
  }

  /** The placement is first-fit: no earlier preferred time could host the
      course, and no earlier room could take it at the chosen time. */
  lemma PlaceFirstFit(rooms: Dict<string, int>, usage: Usage, enrollment: int, prefs: seq<string>)
    requires Place(rooms, usage, enrollment, prefs).Some?
    ensures var slot := Place(rooms, usage, enrollment, prefs).value;
      exists p | 0 <= p < |prefs| :: prefs[p] == slot.time
        && forall q | 0 <= q < p :: !CanHost(rooms, usage, enrollment, prefs[q])
    ensures var slot := Place(rooms, usage, enrollment, prefs).value;
      exists k | 0 <= k < |rooms| :: rooms[k].0 == slot.room && Fits(rooms[k], enrollment, usage[slot.time])
        && forall j | 0 <= j < k :: !Fits(rooms[j], enrollment, usage[slot.time])
  {
    var p := FirstTime(rooms, usage, enrollment, prefs).value;
    var k := FirstRoom(rooms, enrollment, usage[prefs[p]]).value;
    assert Place(rooms, usage, enrollment, prefs).value == Slot(rooms[k].0, prefs[p]);
  }

  /** The scheduler's state between courses. */
  datatype State = State(schedule: Dict<string, Slot>, conflicts: seq<Conflict>, usage: Usage)

  function Start(times: seq<string>): State {
    State([], [], InitialUsage(times))
  }

  /** Mark the slot's room as taken at the slot's time. */
  function Take(usage: Usage, slot: Slot): Usage
    requires slot.time in usage
  {
    usage[slot.time := usage[slot.time] + [slot.room]]
  }

  /** One iteration of the outer loop. */
  function Step(rooms: Dict<string, int>, prefs: Dict<string, Details>, st: State, course: string): State {
    match Get(prefs, course)
    case None => st
    case Some(d) =>
      match Place(rooms, st.usage, d.enrollment, d.preferences)
      case None => st.(conflicts := st.conflicts + [Conflict(course, Reason)])
      case Some(slot) => State(Put(st.schedule, course, slot), st.conflicts, Take(st.usage, slot))
  }

  /** The state after the given courses. */
  function Run(rooms: Dict<string, int>, times: seq<string>, prefs: Dict<string, Details>, courses: seq<string>): State
    decreases |courses|
  {
    if courses == [] then Start(times)
    else Step(rooms, prefs, Run(rooms, times, prefs, courses[..|courses| - 1]), courses[|courses| - 1])
  }

  /** `schedule_courses(rooms, courses, times, course_preferences)`. */
  function ScheduleCourses(rooms: Dict<string, int>, courses: seq<string>, times: seq<string>,
                           prefs: Dict<string, Details>): (Dict<string, Slot>, seq<Conflict>)
  {
    var st := Run(rooms, times, prefs, courses);
    (st.schedule, st.conflicts)
  }

  lemma RunLast(rooms: Dict<string, int>, times: seq<string>, prefs: Dict<string, Details>, courses: seq<string>, i: nat)
    requires i < |courses|
    ensures Run(rooms, times, prefs, courses[..i + 1]) == Step(rooms, prefs, Run(rooms, times, prefs, courses[..i]), courses[i])
  {
    assert courses[..i + 1][..i] == courses[..i];
  }

  /** The inner loop over the rooms at one time. */
  method FindRoom(rooms: seq<(string, int)>, enrollment: int, taken: seq<string>) returns (r: Option<nat>)
    ensures r == FirstRoom(rooms, enrollment, taken)
  {
    var k := 0;
    while k < |rooms|
      invariant k <= |rooms|
      invariant forall j | 0 <= j < k :: !Fits(rooms[j], enrollment, taken)
    {
      if rooms[k].1 >= enrollment && rooms[k].0 !in taken {
        return Some(k);
      }
      k := k + 1;
    }
    return None;
  }

  /** The loop over the preferred times, with its `continue` and `break`. */
  method FindSlot(rooms: Dict<string, int>, usage: Usage, enrollment: int, prefs: seq<string>) returns (r: Option<Slot>)
    ensures r == Place(rooms, usage, enrollment, prefs)
  {
    var p := 0;
    while p < |prefs|
      invariant p <= |prefs|
      invariant forall q | 0 <= q < p :: !CanHost(rooms, usage, enrollment, prefs[q])
    {
      var time := prefs[p];
      if time in usage {
        var k := FindRoom(rooms, enrollment, usage[time]);
        if k.Some? {
          assert FirstTime(rooms, usage, enrollment, prefs) == Some(p);
          return Some(Slot(rooms[k.value].0, time));
        }
      }
      p := p + 1;
    }
    return None;
  }

  /** The outer loop over the courses. */
  method ScheduleCoursesLoop(rooms: Dict<string, int>, courses: seq<string>, times: seq<string>,
                             prefs: Dict<string, Details>)
      returns (schedule: Dict<string, Slot>, conflicts: seq<Conflict>)
    ensures (schedule, conflicts) == ScheduleCourses(rooms, courses, times, prefs)
  {
    var usage := InitialUsage(times);
    schedule, conflicts := [], [];
    for i := 0 to |courses|
      invariant State(schedule, conflicts, usage) == Run(rooms, times, prefs, courses[..i])
    {
      RunLast(rooms, times, prefs, courses, i);
      var course := courses[i];
      var details := Get(prefs, course);
      if details.Some? {
        var slot := FindSlot(rooms, usage, details.value.enrollment, details.value.preferences);
        if slot.Some? {
          usage := Take(usage, slot.value);
          schedule := Put(schedule, course, slot.value);
        } else {
          conflicts := conflicts + [Conflict(course, Reason)];
        }
      }
    }
    assert courses[..|courses|] == courses;
  }

  // ---------------------------------------------------------------------------
  // Safety

  /** What the source promises of one scheduled course. */
  ghost predicate SlotOk(rooms: Dict<string, int>, times: seq<string>, prefs: Dict<string, Details>, course: string, slot: Slot) {
    && slot.time in times
    && Get(prefs, course).Some?
    && slot.time in Get(prefs, course).value.preferences
    && Get(rooms, slot.room).Some?
    && Get(rooms, slot.room).value >= Get(prefs, course).value.enrollment
  }

  /** Every scheduled course is placed as promised and its room is marked taken. */
  ghost predicate SlotsOk(rooms: Dict<string, int>, times: seq<string>, prefs: Dict<string, Details>, st: State) {
    forall c | Get(st.schedule, c).Some? ::
      && SlotOk(rooms, times, prefs, c, Get(st.schedule, c).value)
      && Get(st.schedule, c).value.time in st.usage
      && Get(st.schedule, c).value.room in st.usage[Get(st.schedule, c).value.time]
  }

  /** No two scheduled courses share a (room, time). */
  ghost predicate SlotsDistinct(schedule: Dict<string, Slot>) {
    forall c, c' | c != c' && Get(schedule, c).Some? && Get(schedule, c').Some? ::
      Get(schedule, c).value != Get(schedule, c').value
  }

  /** The invariant of the outer loop. */
  ghost predicate Safe(rooms: Dict<string, int>, times: seq<string>, prefs: Dict<string, Details>, st: State) {
    && (forall t :: t in st.usage <==> t in times)
    && SlotsOk(rooms, times, prefs, st)
    && SlotsDistinct(st.schedule)
  }

  lemma StartSafe(rooms: Dict<string, int>, times: seq<string>, prefs: Dict<string, Details>)
    ensures Safe(rooms, times, prefs, Start(times))
  {
  }

  lemma StepSafe(rooms: Dict<string, int>, times: seq<string>, prefs: Dict<string, Details>, st: State, course: string)
    requires Safe(rooms, times, prefs, st)
    ensures Safe(rooms, times, prefs, Step(rooms, prefs, st, course))
  {
    match Get(prefs, course)
    case None =>
    case Some(d) =>
      match Place(rooms, st.usage, d.enrollment, d.preferences)
      case None =>
      case Some(slot) =>
        var next := State(Put(st.schedule, course, slot), st.conflicts, Take(st.usage, slot));
        PlaceKeepsSlotsOk(rooms, times, prefs, st, course, slot);
        PlaceKeepsDistinct(rooms, times, prefs, st, course, slot);
        assert Step(rooms, prefs, st, course) == next;
  }

  lemma PlaceKeepsSlotsOk(rooms: Dict<string, int>, times: seq<string>, prefs: Dict<string, Details>, st: State,
                          course: string, slot: Slot)
    requires Safe(rooms, times, prefs, st)
    requires Get(prefs, course).Some?
    requires Place(rooms, st.usage, Get(prefs, course).value.enrollment, Get(prefs, course).value.preferences) == Some(slot)
    ensures SlotsOk(rooms, times, prefs, State(Put(st.schedule, course, slot), st.conflicts, Take(st.usage, slot)))
  {
    var s := Put(st.schedule, course, slot);
    var u := Take(st.usage, slot);
    forall c | Get(s, c).Some?
      ensures SlotOk(rooms, times, prefs, c, Get(s, c).value)
      ensures Get(s, c).value.time in u && Get(s, c).value.room in u[Get(s, c).value.time]
    {
      if c != course {
        var prev := Get(st.schedule, c).value;
        TakeKeeps(st.usage, slot, prev);
      } else {
        TakeKeeps(st.usage, slot, slot);
      }
    }
  }

  /** Taking a room never frees another. */
  lemma TakeKeeps(usage: Usage, slot: Slot, other: Slot)
    requires slot.time in usage && other.time in usage
    requires other == slot || other.room in usage[other.time]
    ensures other.time in Take(usage, slot) && other.room in Take(usage, slot)[other.time]
  {
    var u := Take(usage, slot);
    if other.time == slot.time {
      assert u[other.time] == usage[other.time] + [slot.room];
    }
  }

  lemma PlaceKeepsDistinct(rooms: Dict<string, int>, times: seq<string>, prefs: Dict<string, Details>, st: State,
                           course: string, slot: Slot)
    requires Safe(rooms, times, prefs, st)
    requires Get(prefs, course).Some?
    requires Place(rooms, st.usage, Get(prefs, course).value.enrollment, Get(prefs, course).value.preferences) == Some(slot)
    ensures SlotsDistinct(Put(st.schedule, course, slot))
  {
    var s := Put(st.schedule, course, slot);
    forall c | c != course && Get(s, c).Some?
      ensures Get(s, c).value != slot
    {
      var prev := Get(st.schedule, c).value;
      assert prev.room in st.usage[prev.time];
    }
  }

  lemma {:induction false} RunSafe(rooms: Dict<string, int>, times: seq<string>, prefs: Dict<string, Details>, courses: seq<string>)
    ensures Safe(rooms, times, prefs, Run(rooms, times, prefs, courses))
    decreases |courses|
  {
    if courses == [] {
      StartSafe(rooms, times, prefs);
    } else {
      RunSafe(rooms, times, prefs, courses[..|courses| - 1]);
      StepSafe(rooms, times, prefs, Run(rooms, times, prefs, courses[..|courses| - 1]), courses[|courses| - 1]);
    }
  }

  /** Every scheduled course got a room big enough, at one of its preferred
      times that is also in the time list, and no two scheduled courses share
      a room at the same time. */
  lemma ScheduleSafe(rooms: Dict<string, int>, courses: seq<string>, times: seq<string>, prefs: Dict<string, Details>)
    ensures var schedule := ScheduleCourses(rooms, courses, times, prefs).0;
      forall c | Get(schedule, c).Some? :: SlotOk(rooms, times, prefs, c, Get(schedule, c).value)
    ensures SlotsDistinct(ScheduleCourses(rooms, courses, times, prefs).0)
  {
    RunSafe(rooms, times, prefs, courses);
  }

  // ---------------------------------------------------------------------------
  // Coverage

  /** After the courses `done`: each course that has details is scheduled or
      reported; only such courses are scheduled or reported. */
  ghost predicate Covered(prefs: Dict<string, Details>, done: seq<string>, st: State) {
    && (forall i | 0 <= i < |done| ::
          Get(prefs, done[i]).Some? ==> Get(st.schedule, done[i]).Some? || Conflict(done[i], Reason) in st.conflicts)
    && (forall c | Get(st.schedule, c).Some? :: c in done && Get(prefs, c).Some?)
    && (forall k | 0 <= k < |st.conflicts| ::
          st.conflicts[k].course in done && Get(prefs, st.conflicts[k].course).Some? && st.conflicts[k].reason == Reason)
  }

  lemma StepCovered(rooms: Dict<string, int>, prefs: Dict<string, Details>, done: seq<string>, st: State, course: string)
    requires Covered(prefs, done, st)
    ensures Covered(prefs, done + [course], Step(rooms, prefs, st, course))
  {
    var next := Step(rooms, prefs, st, course);
    var done' := done + [course];
    assert forall i | 0 <= i < |done| :: done'[i] == done[i];
    assert forall c | c in done :: c in done';
    assert done'[|done|] == course;
    match Get(prefs, course)
    case None =>
    case Some(d) =>
      match Place(rooms, st.usage, d.enrollment, d.preferences)
      case None =>
        assert next.conflicts == st.conflicts + [Conflict(course, Reason)];
      case Some(slot) =>
        assert next.schedule == Put(st.schedule, course, slot);
  }

  lemma {:induction false} RunCovered(rooms: Dict<string, int>, times: seq<string>, prefs: Dict<string, Details>, courses: seq<string>)
    ensures Covered(prefs, courses, Run(rooms, times, prefs, courses))
    decreases |courses|
  {
    if courses != [] {
      var done := courses[..|courses| - 1];
      RunCovered(rooms, times, prefs, done);
      StepCovered(rooms, prefs, done, Run(rooms, times, prefs, done), courses[|courses| - 1]);
      assert done + [courses[|courses| - 1]] == courses;
    }
  }

  /** Every listed course that has details ends up scheduled or reported;
      a course without details ends up in neither; nothing else appears. */
  lemma ScheduleCovers(rooms: Dict<string, int>, courses: seq<string>, times: seq<string>, prefs: Dict<string, Details>)
    ensures var (schedule, conflicts) := ScheduleCourses(rooms, courses, times, prefs);
      forall i | 0 <= i < |courses| && Get(prefs, courses[i]).Some? ::
        Get(schedule, courses[i]).Some? || Conflict(courses[i], Reason) in conflicts
    ensures var (schedule, conflicts) := ScheduleCourses(rooms, courses, times, prefs);
      forall c | Get(prefs, c).None? :: Get(schedule, c).None? && forall k | 0 <= k < |conflicts| :: conflicts[k].course != c
    ensures var (schedule, conflicts) := ScheduleCourses(rooms, courses, times, prefs);
      (forall c | Get(schedule, c).Some? :: c in courses) && forall k | 0 <= k < |conflicts| :: conflicts[k].course in courses
  {
    RunCovered(rooms, times, prefs, courses);
  }

  predicate NoRepeats(courses: seq<string>) {
    forall i, j | 0 <= i < j < |courses| :: courses[i] != courses[j]
  }

  /** No reported course is also scheduled. */
  ghost predicate Exclusive(st: State) {
    forall k | 0 <= k < |st.conflicts| :: Get(st.schedule, st.conflicts[k].course).None?
  }

  lemma StepExclusive(rooms: Dict<string, int>, prefs: Dict<string, Details>, done: seq<string>, st: State, course: string)
    requires Covered(prefs, done, st) && course !in done
    requires Exclusive(st)
    ensures Exclusive(Step(rooms, prefs, st, course))
  {
    var next := Step(rooms, prefs, st, course);
    assert Get(st.schedule, course).None?;
    assert forall k | 0 <= k < |st.conflicts| :: st.conflicts[k].course != course;
    match Get(prefs, course)
    case None =>
    case Some(d) =>
      match Place(rooms, st.usage, d.enrollment, d.preferences)
      case None =>
        assert next.schedule == st.schedule;
        assert next.conflicts == st.conflicts + [Conflict(course, Reason)];
      case Some(slot) =>
        assert next.conflicts == st.conflicts;
        assert next.schedule == Put(st.schedule, course, slot);
  }

  lemma {:induction false} RunExclusive(rooms: Dict<string, int>, times: seq<string>, prefs: Dict<string, Details>, courses: seq<string>)
    requires NoRepeats(courses)
    ensures Exclusive(Run(rooms, times, prefs, courses))
    decreases |courses|
  {
    if courses != [] {
      var done := courses[..|courses| - 1];
      var last := courses[|courses| - 1];
      assert NoRepeats(done);
      RunExclusive(rooms, times, prefs, done);
      RunCovered(rooms, times, prefs, done);
      assert last !in done;
      StepExclusive(rooms, prefs, done, Run(rooms, times, prefs, done), last);
    }
  }

  /** With no course listed twice, no course is both scheduled and reported.
      A repeated course can be both: placed the first time, reported the second. */
  lemma ScheduleExclusive(rooms: Dict<string, int>, courses: seq<string>, times: seq<string>, prefs: Dict<string, Details>)
    requires NoRepeats(courses)
    ensures forall k | 0 <= k < |ScheduleCourses(rooms, courses, times, prefs).1| ::
      Get(ScheduleCourses(rooms, courses, times, prefs).0, ScheduleCourses(rooms, courses, times, prefs).1[k].course).None?
  {
    RunExclusive(rooms, times, prefs, courses);
  }

  /** A course none of whose preferred times is in the time list, or that is
      bigger than every room, can never be placed. */
  predicate Unplaceable(rooms: seq<(string, int)>, times: seq<string>, d: Details) {
    forall q | 0 <= q < |d.preferences| ::
      d.preferences[q] !in times || forall k | 0 <= k < |rooms| :: rooms[k].1 < d.enrollment
  }

  lemma StepKeepsConflicts(rooms: Dict<string, int>, prefs: Dict<string, Details>, st: State, course: string)
    ensures st.conflicts <= Step(rooms, prefs, st, course).conflicts
  {
  }

  lemma UnplaceableNotPlaced(rooms: Dict<string, int>, times: seq<string>, usage: Usage, d: Details)
    requires forall t :: t in usage <==> t in times
    requires Unplaceable(rooms, times, d)
    ensures Place(rooms, usage, d.enrollment, d.preferences).None?
  {
    forall q | 0 <= q < |d.preferences| ensures !CanHost(rooms, usage, d.enrollment, d.preferences[q]) {
      var t := d.preferences[q];
      if t in usage {
        assert forall k | 0 <= k < |rooms| :: !Fits(rooms[k], d.enrollment, usage[t]);
      }
    }
  }

  lemma {:induction false} UnplaceableReported(rooms: Dict<string, int>, times: seq<string>, prefs: Dict<string, Details>,
                                               courses: seq<string>, course: string)
    requires course in courses && Get(prefs, course).Some?
    requires Unplaceable(rooms, times, Get(prefs, course).value)
    ensures Conflict(course, Reason) in Run(rooms, times, prefs, courses).conflicts
    decreases |courses|
  {
    var done := courses[..|courses| - 1];
    var last := courses[|courses| - 1];
    var st := Run(rooms, times, prefs, done);
    RunSafe(rooms, times, prefs, done);
    if last == course {
      UnplaceableNotPlaced(rooms, times, st.usage, Get(prefs, course).value);
      assert Step(rooms, prefs, st, course).conflicts == st.conflicts + [Conflict(course, Reason)];
    } else {
      assert course in done by {
        var i :| 0 <= i < |courses| && courses[i] == course;
        assert done[i] == course;
      }
      UnplaceableReported(rooms, times, prefs, done, course);
      StepKeepsConflicts(rooms, prefs, st, last);
    }
  }

  /** A listed course whose preferred times are all missing from the time
      list, or that is bigger than every room, is always reported. */
  lemma ScheduleReportsUnplaceable(rooms: Dict<string, int>, courses: seq<string>, times: seq<string>,
                                   prefs: Dict<string, Details>, course: string)
    requires course in courses && Get(prefs, course).Some?
    requires Unplaceable(rooms, times, Get(prefs, course).value)
    ensures Conflict(course, Reason) in ScheduleCourses(rooms, courses, times, prefs).1
  {
    UnplaceableReported(rooms, times, prefs, courses, course);
  }

  // ---------------------------------------------------------------------------
  // generate_conflict_report

  const ReportHead := "Course "
  const ReportMid := " could not be scheduled: "

  function ReportLine(c: Conflict): string {
    ReportHead + c.course + ReportMid + c.reason
  }

  function ReportLines(cs: seq<Conflict>): (lines: seq<string>)
    ensures |lines| == |cs|
    ensures forall k | 0 <= k < |cs| :: lines[k] == ReportLine(cs[k])
  {
    if cs == [] then [] else [ReportLine(cs[0])] + ReportLines(cs[1..])
  }

  /** `generate_conflict_report(conflicts)`: one line per conflict, in order, joined by newlines. */
  function ConflictReport(cs: seq<Conflict>): (report: string)
    ensures cs == [] <==> report == []
  {
    var lines := ReportLines(cs);
    if cs != [] then
      JoinEnds(lines, "\n");
      Join(lines, "\n")
    else
      Join(lines, "\n")
  }

  /** Reads the course back out of a report line with the scheduler's reason. */
  function ReportedCourse(line: string): Option<string> {
    var tail := ReportMid + Reason;
    if |line| >= |ReportHead| + |tail| && StartsWith(line, ReportHead) && line[|line| - |tail|..] == tail then
      Some(line[|ReportHead|..|line| - |tail|])
    else None
  }

  lemma ReportedCourseOfLine(course: string)
    ensures ReportedCourse(ReportLine(Conflict(course, Reason))) == Some(course)
  {
    var line := ReportLine(Conflict(course, Reason));
    var tail := ReportMid + Reason;
    assert line == ReportHead + course + tail;
    assert line[..|ReportHead|] == ReportHead;
    assert line[|line| - |tail|..] == tail;
    assert line[|ReportHead|..|line| - |tail|] == course;
  }

  /** A conflict whose course and reason hold no line break. */
  predicate PlainConflict(c: Conflict) {
    '\n' !in c.course && '\n' !in c.reason
  }

  lemma ReportLineNoNewline(c: Conflict)
    requires PlainConflict(c)
    ensures '\n' !in ReportLine(c)
  {
    assert '\n' !in ReportHead && '\n' !in ReportMid;
  }

  lemma ReportLinesPlain(cs: seq<Conflict>)
    requires forall k | 0 <= k < |cs| :: PlainConflict(cs[k])
    ensures forall k | 0 <= k < |cs| :: '\n' !in ReportLines(cs)[k]
  {
    forall k | 0 <= k < |cs| ensures '\n' !in ReportLines(cs)[k] {
      ReportLineNoNewline(cs[k]);
    }
  }

  /** Splitting the report on newlines gives back one line per conflict, in order. */
  lemma {:induction false} ConflictReportLines(cs: seq<Conflict>)
    requires cs != []
    requires forall k | 0 <= k < |cs| :: PlainConflict(cs[k])
    ensures Split(ConflictReport(cs), '\n') == ReportLines(cs)
  {
    ReportLinesPlain(cs);
    ConflictReportJoin(cs);
    SplitJoin(ReportLines(cs), '\n');
  }

  lemma ConflictReportJoin(cs: seq<Conflict>)
    ensures ConflictReport(cs) == Join(ReportLines(cs), ['\n'])
  {
    assert "\n" == ['\n'];
  }

  /** Each line of the report names its conflict's course. */
  lemma ReportLinesCourses(cs: seq<Conflict>)
    requires forall k | 0 <= k < |cs| :: cs[k].reason == Reason
    ensures forall k | 0 <= k < |cs| :: ReportedCourse(ReportLines(cs)[k]) == Some(cs[k].course)
  {
    forall k | 0 <= k < |cs| ensures ReportedCourse(ReportLines(cs)[k]) == Some(cs[k].course) {
      ReportedCourseOfLine(cs[k].course);
    }
  }
}
