/** `main` of `backend/scheduling_algorithm.py`: parse both files, stop with
    the list of validation errors if there is one, otherwise schedule and
    report the conflicts.  The pandas table built from the schedule is
    replaced by the schedule itself. */
module Pipeline {
  import opened Wrappers
  import opened Text
  import opened Dicts
  import opened Algorithm
  import opened Validation
  import opened Scheduler

  const ErrorsHeader := "Errors found in input files:\n"

  datatype Outcome =
    | Rejected(message: string)
    | Scheduled(schedule: Dict<string, Slot>, report: string)

  function Main(file1: string, file2: string): (r: Result<Outcome, ParseError>)
    ensures r.Failure? <==> ParseFile1(file1).Failure? || ParseFile2(file2).Failure?
  {
    match ParseFile1(file1)
    case Failure(e) => Failure(e)
    case Success(f) =>
      match ParseFile2(file2)
      case Failure(e) => Failure(e)
      case Success(prefs) =>
        var errors := ValidateInputs(f.rooms, f.courses, f.times, prefs);
        if errors != [] then Success(Rejected(ErrorsHeader + Join(errors, "\n")))
        else
          var (schedule, conflicts) := ScheduleCourses(f.rooms, f.courses, f.times, prefs);
          Success(Scheduled(schedule, ConflictReport(conflicts)))
  }

  /** Input that parses is scheduled exactly when it passes every validation rule. */
  lemma MainRejectsInvalid(file1: string, file2: string)
    requires ParseFile1(file1).Success? && ParseFile2(file2).Success?
    ensures var f := ParseFile1(file1).value;
      Main(file1, file2).value.Scheduled? <==> InputsValid(f.rooms, f.times, ParseFile2(file2).value)
    ensures Main(file1, file2).value.Rejected? ==> StartsWith(Main(file1, file2).value.message, ErrorsHeader)
    ensures var f := ParseFile1(file1).value;
      var errors := ValidateInputs(f.rooms, f.courses, f.times, ParseFile2(file2).value);
      Main(file1, file2).value.Rejected? ==>
        errors != [] && Main(file1, file2).value.message == ErrorsHeader + Join(errors, "\n")
    ensures var f := ParseFile1(file1).value;
      var run := ScheduleCourses(f.rooms, f.courses, f.times, ParseFile2(file2).value);
      Main(file1, file2).value.Scheduled? ==>
        Main(file1, file2).value.schedule == run.0 && Main(file1, file2).value.report == ConflictReport(run.1)
  {
    var m := Main(file1, file2).value;
    if m.Rejected? {
      var f := ParseFile1(file1).value;
      var errors := ValidateInputs(f.rooms, f.courses, f.times, ParseFile2(file2).value);
      assert m.message == ErrorsHeader + Join(errors, "\n");
      assert m.message[..|ErrorsHeader|] == ErrorsHeader;
    }
  }

  /** On valid input a well-placed course sits at a known time slot in a room of allowed size. */
  lemma ValidSlot(rooms: Dict<string, int>, times: seq<string>, prefs: Dict<string, Details>, c: string, slot: Slot)
    requires InputsValid(rooms, times, prefs) && SlotOk(rooms, times, prefs, c, slot)
    ensures slot.time in KnownTimes && Get(rooms, slot.room).Some? && SizeOk(Get(rooms, slot.room).value)
  {
    var i :| 0 <= i < |times| && times[i] == slot.time;
    var k :| 0 <= k < |rooms| && rooms[k] == (slot.room, Get(rooms, slot.room).value);
  }

  lemma ValidScheduleSafe(rooms: Dict<string, int>, courses: seq<string>, times: seq<string>, prefs: Dict<string, Details>)
    requires InputsValid(rooms, times, prefs)
    ensures var s := ScheduleCourses(rooms, courses, times, prefs).0;
      forall c | Get(s, c).Some? :: Get(s, c).value.time in KnownTimes && Get(rooms, Get(s, c).value.room).Some?
        && SizeOk(Get(rooms, Get(s, c).value.room).value)
  {
    ScheduleSafe(rooms, courses, times, prefs);
    var s := ScheduleCourses(rooms, courses, times, prefs).0;
    forall c | Get(s, c).Some?
      ensures Get(s, c).value.time in KnownTimes && Get(rooms, Get(s, c).value.room).Some?
        && SizeOk(Get(rooms, Get(s, c).value.room).value)
    {
      ValidSlot(rooms, times, prefs, c, Get(s, c).value);
    }
  }

  /** Everything the pipeline schedules is at one of the eight known time
      slots, in a room holding 10 to 300 people that is at least as big as the
      course, and no two courses share a room at the same time. */
  lemma MainScheduleSafe(file1: string, file2: string)
    requires Main(file1, file2).Success? && Main(file1, file2).value.Scheduled?
    ensures var s := Main(file1, file2).value.schedule;
      forall c | Get(s, c).Some? ::
        && Get(s, c).value.time in KnownTimes
        && SlotOk(ParseFile1(file1).value.rooms, ParseFile1(file1).value.times, ParseFile2(file2).value, c, Get(s, c).value)
        && SizeOk(Get(ParseFile1(file1).value.rooms, Get(s, c).value.room).value)
    ensures SlotsDistinct(Main(file1, file2).value.schedule)
  {
    var f := ParseFile1(file1).value;
    var prefs := ParseFile2(file2).value;
    MainRejectsInvalid(file1, file2);
    ScheduleSafe(f.rooms, f.courses, f.times, prefs);
    ValidScheduleSafe(f.rooms, f.courses, f.times, prefs);
    assert Main(file1, file2).value.schedule == ScheduleCourses(f.rooms, f.courses, f.times, prefs).0;
  }
}
