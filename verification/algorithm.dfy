/** The parsers and the validator of `backend/scheduling_algorithm.py`.

    File 1 is line oriented: a line reading `rooms`, `courses` or `times`
    (after stripping) switches the current section; a rooms line is
    `name : capacity`; a courses or times line is split on commas, and the
    last such line of a section wins.  File 2 has one course per line:
    `course enrollment preference...`. */
module Algorithm {
  import opened Wrappers
  import opened Text
  import opened Dicts
  import opened Seqs

  /** The exceptions the parsers can raise. */
  datatype ParseError =
    | UnpackError(line: string)    // `a, b = line.split(':')` without exactly two parts
    | NotAnInteger(text: string)   // `int(text)` raised ValueError
    | MissingToken(line: string)   // `parts[i]` past the end raised IndexError

  datatype Section = NoSection | RoomsSection | CoursesSection | TimesSection

  /** What `parse_file1` returns: capacities by room name, the course list and the time list. */
  datatype File1 = File1(rooms: Dict<string, int>, courses: seq<string>, times: seq<string>)

  /** The parser's state between lines. */
  datatype Parser1 = Parser1(section: Section, data: File1)

  const Start1 := Parser1(NoSection, File1([], [], []))

  /** The section a stripped line switches to, when it is a header. */
  function Header(line: string): Option<Section> {
    if line == "rooms" then Some(RoomsSection)
    else if line == "courses" then Some(CoursesSection)
    else if line == "times" then Some(TimesSection)
    else None
  }

  /** A stripped rooms line `name : capacity`. */
  function RoomEntry(line: string): Result<(string, int), ParseError> {
    var parts := Split(line, ':');
    if |parts| != 2 then Failure(UnpackError(line))
    else
      var cap := Strip(parts[1]);
      match ParseInt(cap)
      case None => Failure(NotAnInteger(cap))
      case Some(c) => Success((Strip(parts[0]), c))
  }

  function ParseLine1(st: Parser1, raw: string): Result<Parser1, ParseError> {
    var line := Strip(raw);
    match Header(line)
    case Some(sec) => Success(st.(section := sec))
    case None =>
      match st.section
      case NoSection => Success(st)
      case RoomsSection =>
        (match RoomEntry(line)
         case Failure(e) => Failure(e)
         case Success(entry) =>
           Success(st.(data := st.data.(rooms := Put(st.data.rooms, entry.0, entry.1)))))
      case CoursesSection => Success(st.(data := st.data.(courses := Split(line, ','))))
      case TimesSection => Success(st.(data := st.data.(times := Split(line, ','))))
  }

  function ParseLines1(st: Parser1, lines: seq<string>): Result<Parser1, ParseError>
    decreases |lines|
  {
    if lines == [] then Success(st)
    else
      match ParseLine1(st, lines[0])
      case Failure(e) => Failure(e)
      case Success(next) => ParseLines1(next, lines[1..])
  }

  /** `parse_file1(content)`. */
  function ParseFile1(content: string): Result<File1, ParseError> {
    match ParseLines1(Start1, Split(Strip(content), '\n'))
    case Failure(e) => Failure(e)
    case Success(st) => Success(st.data)
  }

  /** Parsing two blocks of lines is parsing the first, then the second from where it stopped. */
  lemma {:induction false} ParseLines1Append(st: Parser1, a: seq<string>, b: seq<string>)
    ensures ParseLines1(st, a + b) ==
      match ParseLines1(st, a)
      case Failure(e) => Failure(e)
      case Success(mid) => ParseLines1(mid, b)
    decreases |a|
  {
    if a == [] {
      assert a + b == b;
    } else {
      assert (a + b)[1..] == a[1..] + b;
      match ParseLine1(st, a[0])
      case Failure(e) =>
      case Success(next) => ParseLines1Append(next, a[1..], b);
    }
  }

  /** Lines before the first header leave the parser untouched. */
  lemma {:induction false} PreambleIgnored(st: Parser1, pre: seq<string>, lines: seq<string>)
    requires st.section == NoSection
    requires forall i | 0 <= i < |pre| :: Header(Strip(pre[i])).None?
    ensures ParseLines1(st, pre + lines) == ParseLines1(st, lines)
    decreases |pre|
  {
    if pre != [] {
      var all := pre + lines;
      assert all[0] == pre[0] && all[1..] == pre[1..] + lines;
      assert Header(Strip(pre[0])).None?;
      assert ParseLine1(st, pre[0]) == Success(st);
      assert ParseLines1(st, all) == ParseLines1(st, all[1..]);
      PreambleIgnored(st, pre[1..], lines);
    } else {
      assert pre + lines == lines;
    }
  }

  // ---------------------------------------------------------------------------
  // File 1 written out in the documented shape, and read back

  function RoomLine(entry: (string, int)): string {
    entry.0 + " : " + IntToString(entry.1)
  }

  function RoomLines(rooms: seq<(string, int)>): (lines: seq<string>)
    ensures |lines| == |rooms|
    ensures forall i | 0 <= i < |rooms| :: lines[i] == RoomLine(rooms[i])
  {
    if rooms == [] then [] else [RoomLine(rooms[0])] + RoomLines(rooms[1..])
  }

  /** `rooms`, one `name : capacity` line per room, then `courses` and `times`
      each followed by one comma-separated line. */
  function RenderFile1(f: File1): string {
    Join(["rooms"] + RoomLines(f.rooms) + ["courses", Join(f.courses, ","), "times", Join(f.times, ",")], "\n")
  }

  predicate PlainRoomName(name: string) {
    name != [] && Trimmed(name) && ':' !in name && '\n' !in name
  }

  /** A list whose comma-joined line survives stripping and is not read as a header. */
  predicate PlainList(xs: seq<string>) {
    && xs != []
    && (forall i | 0 <= i < |xs| :: ',' !in xs[i] && '\n' !in xs[i])
    && Trimmed(Join(xs, ","))
    && Header(Join(xs, ",")).None?
  }

  predicate Renderable1(f: File1) {
    && (forall i | 0 <= i < |f.rooms| :: PlainRoomName(f.rooms[i].0))
    && PlainList(f.courses)
    && PlainList(f.times)
    && Join(f.times, ",") != []
  }

  lemma {:induction false} JoinExcludes(parts: seq<string>, sep: string, c: char)
    requires forall i | 0 <= i < |parts| :: c !in parts[i]
    requires c !in sep
    ensures c !in Join(parts, sep)
    decreases |parts|
  {
    if |parts| > 1 {
      JoinExcludes(parts[1..], sep, c);
    }
  }

  lemma {:induction false} JoinEnds(parts: seq<string>, sep: string)
    requires parts != []
    ensures StartsWith(Join(parts, sep), parts[0])
    ensures |parts[|parts| - 1]| <= |Join(parts, sep)|
    ensures Join(parts, sep)[|Join(parts, sep)| - |parts[|parts| - 1]|..] == parts[|parts| - 1]
    decreases |parts|
  {
    if |parts| > 1 {
      JoinEnds(parts[1..], sep);
      var j := Join(parts, sep);
      assert j == parts[0] + sep + Join(parts[1..], sep);
      assert j[..|parts[0]|] == parts[0];
    }
  }

  /** A join whose first part starts, and whose last part ends, with a non-space is trimmed. */
  lemma JoinTrimmed(parts: seq<string>, sep: string)
    requires parts != [] && parts[0] != [] && !IsSpace(parts[0][0])
    requires parts[|parts| - 1] != [] && !IsSpace(parts[|parts| - 1][|parts[|parts| - 1]| - 1])
    ensures Trimmed(Join(parts, sep))
  {
    JoinEnds(parts, sep);
    var j := Join(parts, sep);
    var last := parts[|parts| - 1];
    assert j[0] == parts[0][0];
    assert j[|j| - 1] == j[|j| - |last|..][|last| - 1];
  }

  lemma HeaderHasNoColon(line: string)
    requires ':' in line
    ensures Header(line).None?
  {
    assert ':' !in "rooms" && ':' !in "courses" && ':' !in "times";
  }

  lemma RoomLineTrimmed(name: string, digits: string)
    requires name != [] && !IsSpace(name[0])
    requires digits != [] && !IsSpace(digits[|digits| - 1])
    ensures Trimmed(name + " : " + digits)
  {
    var line := name + " : " + digits;
    assert line[0] == name[0];
    assert line[|line| - 1] == digits[|digits| - 1];
  }

  lemma RoomLineSplit(name: string, digits: string)
    requires ':' !in name && ':' !in digits
    ensures Split(name + " : " + digits, ':') == [name + " ", " " + digits]
  {
    assert name + " : " + digits == Join([name + " ", " " + digits], ":");
    SplitJoin([name + " ", " " + digits], ':');
  }

  lemma RoomLineFields(name: string, digits: string)
    requires Trimmed(name) && Trimmed(digits)
    ensures Strip(name + " ") == name && Strip(" " + digits) == digits
  {
    StripPadded([], name, " ");
    assert [] + name + " " == name + " ";
    StripPadded(" ", digits, []);
    assert " " + digits + [] == " " + digits;
  }

  lemma RoomLineStrip(entry: (string, int))
    requires PlainRoomName(entry.0)
    ensures Strip(RoomLine(entry)) == RoomLine(entry)
  {
    IntToStringPlain(entry.1);
    RoomLineTrimmed(entry.0, IntToString(entry.1));
    StripTrimmed(RoomLine(entry));
  }

  lemma RoomLineEntry(entry: (string, int))
    requires PlainRoomName(entry.0)
    ensures RoomEntry(RoomLine(entry)) == Success(entry)
  {
    var digits := IntToString(entry.1);
    IntToStringPlain(entry.1);
    RoomLineSplit(entry.0, digits);
    RoomLineFields(entry.0, digits);
    ParseIntToString(entry.1);
  }

  lemma RoomLineHeader(entry: (string, int))
    requires PlainRoomName(entry.0)
    ensures Header(RoomLine(entry)).None?
  {
    IntToStringPlain(entry.1);
    var line := RoomLine(entry);
    assert line[|entry.0| + 1] == ':';
    HeaderHasNoColon(line);
  }

  lemma RoomLineNoNewline(entry: (string, int))
    requires PlainRoomName(entry.0)
    ensures '\n' !in RoomLine(entry)
  {
    IntToStringPlain(entry.1);
  }

  /** One room line in the rooms section adds its room to the dict. */
  lemma RoomLineStep(d: Dict<string, int>, cs: seq<string>, ts: seq<string>, entry: (string, int))
    requires PlainRoomName(entry.0) && entry.0 !in Keys(d)
    ensures UniqueKeys(d + [entry])
    ensures ParseLine1(Parser1(RoomsSection, File1(d, cs, ts)), RoomLine(entry))
         == Success(Parser1(RoomsSection, File1(d + [entry], cs, ts)))
  {
    var line := RoomLine(entry);
    RoomLineStrip(entry);
    RoomLineHeader(entry);
    RoomLineEntry(entry);
    var d' := Put(d, entry.0, entry.1);
    assert d' == d + [entry];
    var st := Parser1(RoomsSection, File1(d, cs, ts));
    assert ParseLine1(st, line) == Success(st.(data := st.data.(rooms := d')));
  }

  /** Room lines append their rooms, in order, to a dict that does not yet hold their names. */
  lemma {:induction false} RoomLinesParse(d: Dict<string, int>, cs: seq<string>, ts: seq<string>, rooms: seq<(string, int)>)
    requires UniqueKeys(d + rooms)
    requires forall i | 0 <= i < |rooms| :: PlainRoomName(rooms[i].0)
    ensures ParseLines1(Parser1(RoomsSection, File1(d, cs, ts)), RoomLines(rooms))
         == Success(Parser1(RoomsSection, File1(d + rooms, cs, ts)))
    decreases |rooms|
  {
    if rooms == [] {
      assert d + rooms == d;
    } else {
      assert rooms[0].0 !in Keys(d) by {
        forall i | 0 <= i < |d| ensures Keys(d)[i] != rooms[0].0 {
          assert (d + rooms)[i] == d[i] && (d + rooms)[|d|] == rooms[0];
        }
      }
      RoomLineStep(d, cs, ts, rooms[0]);
      var d': Dict<string, int> := d + [rooms[0]];
      var lines := RoomLines(rooms);
      assert lines[0] == RoomLine(rooms[0]);
      assert lines[1..] == RoomLines(rooms[1..]);
      assert rooms == [rooms[0]] + rooms[1..];
      assert d' + rooms[1..] == d + rooms by {
        SeqAssoc(d, [rooms[0]], rooms[1..]);
      }
      var st := Parser1(RoomsSection, File1(d, cs, ts));
      assert ParseLines1(st, lines) == ParseLines1(Parser1(RoomsSection, File1(d', cs, ts)), lines[1..]);
      RoomLinesParse(d', cs, ts, rooms[1..]);
    }
  }

  lemma ParseLines1Cons(st: Parser1, next: Parser1, line: string, rest: seq<string>)
    requires ParseLine1(st, line) == Success(next)
    ensures ParseLines1(st, [line] + rest) == ParseLines1(next, rest)
  {
    assert ([line] + rest)[0] == line && ([line] + rest)[1..] == rest;
  }

  lemma HeaderWords()
    ensures Header("rooms") == Some(RoomsSection) && Trimmed("rooms")
    ensures Header("courses") == Some(CoursesSection) && Trimmed("courses")
    ensures Header("times") == Some(TimesSection) && Trimmed("times")
  {
    assert "times" != "rooms" by { assert "times"[0] != "rooms"[0]; }
  }

  /** A line that strips to a section word switches to that section,
      whatever whitespace surrounds the word. */
  lemma HeaderLine(st: Parser1, line: string, sec: Section)
    requires Header(Strip(line)) == Some(sec)
    ensures ParseLine1(st, line) == Success(st.(section := sec))
  {
  }

  lemma ListLine(st: Parser1, xs: seq<string>)
    requires PlainList(xs) && (st.section == CoursesSection || st.section == TimesSection)
    ensures ParseLine1(st, Join(xs, ",")) ==
      Success(if st.section == CoursesSection then st.(data := st.data.(courses := xs))
              else st.(data := st.data.(times := xs)))
  {
    StripTrimmed(Join(xs, ","));
    SplitJoin(xs, ',');
  }

  /** After the rooms: the courses header and line, then the times header and line. */
  lemma ListSectionsParse(rooms: Dict<string, int>, courses: seq<string>, times: seq<string>)
    requires PlainList(courses) && PlainList(times)
    ensures ParseLines1(Parser1(RoomsSection, File1(rooms, [], [])), ["courses", Join(courses, ","), "times", Join(times, ",")])
         == Success(Parser1(TimesSection, File1(rooms, courses, times)))
  {
    var c := Join(courses, ",");
    var t := Join(times, ",");
    var st1 := Parser1(RoomsSection, File1(rooms, [], []));
    var st2 := Parser1(CoursesSection, File1(rooms, [], []));
    var st3 := Parser1(CoursesSection, File1(rooms, courses, []));
    var st4 := Parser1(TimesSection, File1(rooms, courses, []));
    var st5 := Parser1(TimesSection, File1(rooms, courses, times));
    HeaderWords();
    assert ["courses", c, "times", t] == ["courses"] + [c, "times", t];
    assert [c, "times", t] == [c] + ["times", t];
    assert ["times", t] == ["times"] + [t];
    assert [t] == [t] + [];
    HeaderLine(st1, "courses", CoursesSection);
    ParseLines1Cons(st1, st2, "courses", [c, "times", t]);
    ListLine(st2, courses);
    ParseLines1Cons(st2, st3, c, ["times", t]);
    HeaderLine(st3, "times", TimesSection);
    ParseLines1Cons(st3, st4, "times", [t]);
    ListLine(st4, times);
    ParseLines1Cons(st4, st5, t, []);
  }

  /** The lines of a rendered file 1 parse back to its rooms, courses and times. */
  lemma RenderedLinesParse(f: File1)
    requires Renderable1(f)
    ensures ParseLines1(Start1, ["rooms"] + RoomLines(f.rooms) + ["courses", Join(f.courses, ","), "times", Join(f.times, ",")])
         == Success(Parser1(TimesSection, f))
  {
    var rl := RoomLines(f.rooms);
    var tail := ["courses", Join(f.courses, ","), "times", Join(f.times, ",")];
    var st0 := Parser1(RoomsSection, File1([], [], []));
    HeaderWords();
    HeaderLine(Start1, "rooms", RoomsSection);
    assert ["rooms"] + rl + tail == ["rooms"] + (rl + tail);
    ParseLines1Cons(Start1, st0, "rooms", rl + tail);
    assert [] + f.rooms == f.rooms;
    RoomLinesParse([], [], [], f.rooms);
    ParseLines1Append(st0, rl, tail);
    ListSectionsParse(f.rooms, f.courses, f.times);
  }

  /** A rendered file 1 is a trimmed text whose lines are the rendered lines. */
  lemma RenderedFile1Lines(f: File1)
    requires Renderable1(f)
    ensures Split(Strip(RenderFile1(f)), '\n')
         == ["rooms"] + RoomLines(f.rooms) + ["courses", Join(f.courses, ","), "times", Join(f.times, ",")]
  {
    var rl := RoomLines(f.rooms);
    var t := Join(f.times, ",");
    var lines := ["rooms"] + rl + ["courses", Join(f.courses, ","), "times", t];
    forall i | 0 <= i < |lines| ensures '\n' !in lines[i] {
      if 1 <= i <= |rl| {
        assert lines[i] == RoomLine(f.rooms[i - 1]);
        RoomLineNoNewline(f.rooms[i - 1]);
      } else if i == |rl| + 2 {
        JoinExcludes(f.courses, ",", '\n');
      } else if i == |rl| + 4 {
        JoinExcludes(f.times, ",", '\n');
      }
    }
    assert lines[0] == "rooms" && lines[|lines| - 1] == t;
    JoinTrimmed(lines, "\n");
    StripTrimmed(Join(lines, "\n"));
    SplitJoin(lines, '\n');
  }

  /** `parse_file1` reads back every file written in the documented shape. */
  lemma ParseFile1RoundTrip(f: File1)
    requires Renderable1(f)
    ensures ParseFile1(RenderFile1(f)) == Success(f)
  {
    RenderedFile1Lines(f);
    RenderedLinesParse(f);
  }

  // ---------------------------------------------------------------------------
  // File 2

  /** Enrollment and preferred times of one course. */
  datatype Details = Details(enrollment: int, preferences: seq<string>)

  /** One line `course enrollment preference...`. */
  function CourseLine(line: string): (r: Result<(string, Details), ParseError>)
    ensures r.Failure? <==> |SplitWs(line)| < 2 || !IsIntLiteral(SplitWs(line)[1])
    ensures |SplitWs(line)| < 2 ==> r == Failure(MissingToken(line))
    ensures |SplitWs(line)| >= 2 && !IsIntLiteral(SplitWs(line)[1]) ==> r == Failure(NotAnInteger(SplitWs(line)[1]))
    ensures r.Success? ==>
      && r.value.0 == SplitWs(line)[0]
      && ParseInt(SplitWs(line)[1]) == Some(r.value.1.enrollment)
      && r.value.1.preferences == SplitWs(line)[2..]
  {
    var parts := SplitWs(line);
    if |parts| < 2 then Failure(MissingToken(line))
    else
      match ParseInt(parts[1])
      case None => Failure(NotAnInteger(parts[1]))
      case Some(e) => Success((parts[0], Details(e, parts[2..])))
  }

  /** The line loop of `parse_file2`: an error exactly when some line fails. */
  function ParseLines2(acc: Dict<string, Details>, lines: seq<string>): (r: Result<Dict<string, Details>, ParseError>)
    ensures r.Failure? <==> exists i | 0 <= i < |lines| :: CourseLine(lines[i]).Failure?
    decreases |lines|
  {
    if lines == [] then Success(acc)
    else
      CourseLineFailsCons(lines);
      match CourseLine(lines[0])
      case Failure(e) => Failure(e)
      case Success(entry) => ParseLines2(Put(acc, entry.0, entry.1), lines[1..])
  }

  /** `parse_file2(content)`: details by course name; a repeated course keeps
      its first position and takes the later line's details. */
  function ParseFile2(content: string): (r: Result<Dict<string, Details>, ParseError>)
    ensures r.Failure? <==> exists i | 0 <= i < |Lines2(content)| :: CourseLine(Lines2(content)[i]).Failure?
  {
    ParseLines2([], Lines2(content))
  }

  /** The lines of file 2: the stripped text split at line breaks. */
  function Lines2(content: string): seq<string> {
    Split(Strip(content), '\n')
  }

  /** Some line fails exactly when the first one does or a later one does. */
  lemma CourseLineFailsCons(lines: seq<string>)
    requires lines != []
    ensures (exists i | 0 <= i < |lines| :: CourseLine(lines[i]).Failure?) <==>
      CourseLine(lines[0]).Failure? || exists i | 0 <= i < |lines[1..]| :: CourseLine(lines[1..][i]).Failure?
  {
    assert forall i | 1 <= i < |lines| :: lines[i] == lines[1..][i - 1];
  }

  lemma ParseLines2Fail(acc: Dict<string, Details>, lines: seq<string>)
    requires lines != [] && CourseLine(lines[0]).Failure?
    ensures ParseLines2(acc, lines) == Failure(CourseLine(lines[0]).error)
  {
  }

  lemma ParseLines2Next(acc: Dict<string, Details>, lines: seq<string>)
    requires lines != [] && CourseLine(lines[0]).Success?
    ensures ParseLines2(acc, lines)
         == ParseLines2(Put(acc, CourseLine(lines[0]).value.0, CourseLine(lines[0]).value.1), lines[1..])
  {
  }

  /** After lines that parse, the first failing line ends the file with its
      own error, whatever follows it. */
  lemma {:induction false} FirstBadLineFails(acc: Dict<string, Details>, pre: seq<string>, line: string, post: seq<string>)
    requires CourseLine(line).Failure?
    requires forall i | 0 <= i < |pre| :: CourseLine(pre[i]).Success?
    ensures ParseLines2(acc, pre + [line] + post) == Failure(CourseLine(line).error)
    decreases |pre|
  {
    var lines := pre + [line] + post;
    if pre == [] {
      assert lines[0] == line;
      ParseLines2Fail(acc, lines);
    } else {
      ConsMiddle(pre, line, post);
      ParseLines2Next(acc, lines);
      var entry := CourseLine(pre[0]).value;
      assert forall i | 0 <= i < |pre[1..]| :: CourseLine(pre[1..][i]).Success? by {
        forall i | 0 <= i < |pre[1..]| ensures CourseLine(pre[1..][i]).Success? {
          assert pre[1..][i] == pre[i + 1];
        }
      }
      FirstBadLineFails(Put(acc, entry.0, entry.1), pre[1..], line, post);
    }
  }

  /** A line with fewer than two tokens makes the whole file fail at that
      line, whatever follows it. */
  lemma ShortLineFails(acc: Dict<string, Details>, pre: seq<string>, line: string, post: seq<string>)
    requires |SplitWs(line)| < 2
    requires forall i | 0 <= i < |pre| :: CourseLine(pre[i]).Success?
    ensures ParseLines2(acc, pre + [line] + post) == Failure(MissingToken(line))
  {
    FirstBadLineFails(acc, pre, line, post);
  }

  /** A line whose second token is not an integer makes the whole file fail
      at that line, whatever follows it. */
  lemma NonIntegerLineFails(acc: Dict<string, Details>, pre: seq<string>, line: string, post: seq<string>)
    requires |SplitWs(line)| >= 2 && !IsIntLiteral(SplitWs(line)[1])
    requires forall i | 0 <= i < |pre| :: CourseLine(pre[i]).Success?
    ensures ParseLines2(acc, pre + [line] + post) == Failure(NotAnInteger(SplitWs(line)[1]))
  {
    FirstBadLineFails(acc, pre, line, post);
  }

  /** An empty or all-blank file still yields one (empty) line, so it fails. */
  lemma BlankFile2Fails(content: string)
    requires AllSpace(content)
    ensures ParseFile2(content) == Failure(MissingToken([]))
  {
    StripEmpty(content);
    EmptyLineFails();
    ParseLines2Fail([], [[]]);
  }

  lemma EmptyLineFails()
    ensures Split([], '\n') == [[]]
    ensures CourseLine([]) == Failure(MissingToken([]))
  {
    SplitWsEmpty();
  }

  /** The tokens of one rendered course line. */
  function CourseTokens(entry: (string, Details)): seq<string> {
    [entry.0, IntToString(entry.1.enrollment)] + entry.1.preferences
  }

  function CourseText(entry: (string, Details)): string {
    Join(CourseTokens(entry), " ")
  }

  function CourseTexts(entries: seq<(string, Details)>): (lines: seq<string>)
    ensures |lines| == |entries|
    ensures forall i | 0 <= i < |entries| :: lines[i] == CourseText(entries[i])
  {
    if entries == [] then [] else [CourseText(entries[0])] + CourseTexts(entries[1..])
  }

  /** One course per line, tokens separated by single spaces. */
  function RenderFile2(entries: seq<(string, Details)>): string {
    Join(CourseTexts(entries), "\n")
  }

  /** A course whose name and preferences are single whitespace-free tokens. */
  predicate PlainEntry(entry: (string, Details)) {
    IsToken(entry.0) && forall k | 0 <= k < |entry.1.preferences| :: IsToken(entry.1.preferences[k])
  }

  predicate Renderable2(entries: seq<(string, Details)>) {
    entries != [] && forall i | 0 <= i < |entries| :: PlainEntry(entries[i])
  }

  lemma CourseTokensPlain(entry: (string, Details))
    requires PlainEntry(entry)
    ensures forall k | 0 <= k < |CourseTokens(entry)| :: IsToken(CourseTokens(entry)[k])
    ensures forall k | 0 <= k < |CourseTokens(entry)| :: '\n' !in CourseTokens(entry)[k]
  {
    var tokens := CourseTokens(entry);
    IntToStringPlain(entry.1.enrollment);
    assert forall k | 2 <= k < |tokens| :: tokens[k] == entry.1.preferences[k - 2];
    assert IsSpace('\n');
  }

  lemma CourseTextSplits(entry: (string, Details))
    requires PlainEntry(entry)
    ensures SplitWs(CourseText(entry)) == CourseTokens(entry)
  {
    CourseTokensPlain(entry);
    SplitWsJoin(CourseTokens(entry));
  }

  lemma CourseTextParses(entry: (string, Details))
    requires PlainEntry(entry)
    ensures CourseLine(CourseText(entry)) == Success(entry)
  {
    var tokens := CourseTokens(entry);
    CourseTextSplits(entry);
    ParseIntToString(entry.1.enrollment);
    assert tokens[1] == IntToString(entry.1.enrollment);
    assert tokens[2..] == entry.1.preferences;
  }

  lemma CourseTextShape(entry: (string, Details))
    requires PlainEntry(entry)
    ensures '\n' !in CourseText(entry)
    ensures CourseText(entry) != [] && Trimmed(CourseText(entry))
  {
    var tokens := CourseTokens(entry);
    CourseTokensPlain(entry);
    JoinExcludes(tokens, " ", '\n');
    assert IsToken(tokens[0]) && IsToken(tokens[|tokens| - 1]);
    JoinTrimmed(tokens, " ");
    JoinEnds(tokens, " ");
  }

  lemma CourseTextStep(acc: Dict<string, Details>, entry: (string, Details), rest: seq<string>)
      returns (acc': Dict<string, Details>)
    requires PlainEntry(entry) && entry.0 !in Keys(acc)
    ensures acc' == acc + [entry]
    ensures ParseLines2(acc, [CourseText(entry)] + rest) == ParseLines2(acc', rest)
  {
    CourseTextParses(entry);
    var lines := [CourseText(entry)] + rest;
    assert lines[0] == CourseText(entry) && lines[1..] == rest;
    ParseLines2Next(acc, lines);
    acc' := Put(acc, entry.0, entry.1);
  }

  lemma FreshHead(acc: Dict<string, Details>, entries: seq<(string, Details)>)
    requires entries != [] && UniqueKeys(acc + entries)
    ensures entries[0].0 !in Keys(acc)
  {
    forall i | 0 <= i < |acc| ensures Keys(acc)[i] != entries[0].0 {
      assert (acc + entries)[i] == acc[i] && (acc + entries)[|acc|] == entries[0];
    }
  }

  lemma {:induction false} CourseTextsParse(acc: Dict<string, Details>, entries: seq<(string, Details)>)
    requires UniqueKeys(acc + entries)
    requires forall i | 0 <= i < |entries| :: PlainEntry(entries[i])
    ensures ParseLines2(acc, CourseTexts(entries)) == Success(acc + entries)
    decreases |entries|
  {
    if entries == [] {
      assert acc + entries == acc;
    } else {
      FreshHead(acc, entries);
      assert CourseTexts(entries) == [CourseText(entries[0])] + CourseTexts(entries[1..]);
      var acc' := CourseTextStep(acc, entries[0], CourseTexts(entries[1..]));
      MoveHead(acc, entries);
      CourseTextsParse(acc', entries[1..]);
    }
  }

  /** A rendered file 2 is a trimmed text whose lines are the rendered course lines. */
  lemma RenderedFile2Lines(entries: seq<(string, Details)>)
    requires Renderable2(entries)
    ensures Split(Strip(RenderFile2(entries)), '\n') == CourseTexts(entries)
  {
    var lines := CourseTexts(entries);
    forall i | 0 <= i < |entries| ensures '\n' !in lines[i] {
      CourseTextShape(entries[i]);
    }
    CourseTextShape(entries[0]);
    CourseTextShape(entries[|entries| - 1]);
    JoinTrimmed(lines, "\n");
    StripTrimmed(RenderFile2(entries));
    SplitJoin(lines, '\n');
  }

  /** `parse_file2` reads back every non-empty file written one course per line. */
  lemma ParseFile2RoundTrip(entries: Dict<string, Details>)
    requires Renderable2(entries)
    ensures ParseFile2(RenderFile2(entries)) == Success(entries)
  {
    var lines := CourseTexts(entries);
    assert Split(Strip(RenderFile2(entries)), '\n') == lines by {
      RenderedFile2Lines(entries);
    }
    assert ParseLines2([], lines) == Success(entries) by {
      EmptyPrefix(entries);
      CourseTextsParse([], entries);
    }
  }
}
