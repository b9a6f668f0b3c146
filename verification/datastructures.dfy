/** The records and the two parsers of `backend/scheduling_data_structures.py`.

    File 1 here is split into `;`-separated sections.  A section is told apart
    by the words it contains: `rooms` first, then `courses`, then `times`.  A
    rooms section lists `number : capacity` lines after its first line; a
    courses or times section lists comma-separated items on its second line.
    File 2 has a header line and then `course enrollment preferences...`
    lines whose preferences are comma-separated. */
module DataStructures {
  import opened Wrappers
  import opened Text
  import opened Algorithm
  import opened Seqs

  datatype Room = Room(number: string, capacity: int)
  datatype Course = Course(number: string, enrollment: int, preferences: seq<string>)
  datatype TimeSlot = TimeSlot(time: string)

  /** The dict `parse_input_file1` returns; a key never set is `None`. */
  datatype InputData1 = InputData1(rooms: Option<seq<Room>>, courses: Option<seq<string>>, times: Option<seq<TimeSlot>>)

  const NoData := InputData1(None, None, None)

  // ---------------------------------------------------------------------------
  // comma-separated items

  /** `item.strip().rstrip(',')`. */
  function CleanItem(item: string): string {
    RStripChar(Strip(item), ',')
  }

  /** Without commas, cleaning an item is stripping it. */
  lemma CleanItemPlain(item: string)
    requires ',' !in item
    ensures CleanItem(item) == Strip(item) && ',' !in CleanItem(item)
  {
    StripExcludes(item, ',');
    RStripCharAbsent(Strip(item), ',');
  }

  /** Every piece cleaned, empty pieces included. */
  function CleanItems(parts: seq<string>): (r: seq<string>)
    requires forall i | 0 <= i < |parts| :: ',' !in parts[i]
    ensures |r| == |parts|
    ensures forall k | 0 <= k < |r| :: r[k] == Strip(parts[k]) && ',' !in r[k]
  {
    var r := seq(|parts|, k requires 0 <= k < |parts| => CleanItem(parts[k]));
    assert forall k | 0 <= k < |r| :: r[k] == Strip(parts[k]) && ',' !in r[k] by {
      forall k | 0 <= k < |r| ensures r[k] == Strip(parts[k]) && ',' !in r[k] {
        CleanItemPlain(parts[k]);
      }
    }
    r
  }

  /** The pieces that are not blank: the `if item.strip()` filter. */
  function NonBlank(parts: seq<string>): (r: seq<string>)
    ensures |r| <= |parts|
    ensures forall k | 0 <= k < |r| :: r[k] in parts && Strip(r[k]) != []
  {
    if parts == [] then []
    else
      var rest := NonBlank(parts[1..]);
      if Strip(parts[0]) == [] then rest else [parts[0]] + rest
  }

  /** The filter works piece by piece: nothing non-blank is dropped and
      nothing is reordered. */
  lemma {:induction false} NonBlankAppend(a: seq<string>, b: seq<string>)
    ensures NonBlank(a + b) == NonBlank(a) + NonBlank(b)
    decreases |a|
  {
    if a == [] {
      assert a + b == b;
    } else {
      assert (a + b)[1..] == a[1..] + b;
      NonBlankAppend(a[1..], b);
    }
  }

  lemma NonBlankSingle(item: string)
    ensures NonBlank([item]) == if Strip(item) == [] then [] else [item]
  {
    assert [item][1..] == [];
  }

  /** The list comprehension of the courses and times sections: the
      non-blank pieces, cleaned, in order. */
  function KeepItems(parts: seq<string>): (r: seq<string>)
    requires forall i | 0 <= i < |parts| :: ',' !in parts[i]
    ensures |r| <= |parts|
    ensures forall k | 0 <= k < |r| :: r[k] != [] && Trimmed(r[k]) && ',' !in r[k]
  {
    var kept := NonBlank(parts);
    assert forall k | 0 <= k < |kept| :: ',' !in kept[k];
    CleanItems(kept)
  }

  /** The items of a courses or times line. */
  function ListItems(line: string): seq<string> {
    KeepItems(Split(line, ','))
  }

  lemma {:induction false} NonBlankKeepsAll(items: seq<string>)
    requires forall i | 0 <= i < |items| :: items[i] != [] && Trimmed(items[i]) && ',' !in items[i]
    ensures NonBlank(items) == items
    decreases |items|
  {
    if items != [] {
      var rest := items[1..];
      assert Strip(items[0]) != [] by {
        StripTrimmed(items[0]);
      }
      assert forall i | 0 <= i < |rest| :: rest[i] == items[i + 1];
      NonBlankKeepsAll(rest);
      HeadTail(items);
    }
  }

  /** Items that are already clean pass the comprehension unchanged. */
  lemma {:induction false} KeepItemsPlain(items: seq<string>)
    requires forall i | 0 <= i < |items| :: items[i] != [] && Trimmed(items[i]) && ',' !in items[i]
    ensures KeepItems(items) == items
  {
    assert KeepItems(items) == CleanItems(items) by {
      NonBlankKeepsAll(items);
    }
    var r := CleanItems(items);
    forall k | 0 <= k < |items| ensures r[k] == items[k] {
      StripTrimmed(items[k]);
    }
    assert r == items;
  }

  /** A comma-joined line of clean items reads back as those items. */
  lemma ListItemsRoundTrip(items: seq<string>)
    requires items != []
    requires forall i | 0 <= i < |items| :: items[i] != [] && Trimmed(items[i]) && ',' !in items[i]
    ensures ListItems(Join(items, ",")) == items
  {
    SplitJoin(items, ',');
    KeepItemsPlain(items);
  }

  // ---------------------------------------------------------------------------
  // rooms section of parse_input_file1

  /** One line after the section's first: blank lines give nothing, others
      must read `number : capacity`. */
  function RoomOf(raw: string): Result<Option<Room>, ParseError> {
    var line := Strip(raw);
    if line == [] then Success(None)
    else
      match RoomEntry(line)
      case Failure(e) => Failure(e)
      case Success(entry) => Success(Some(Room(entry.0, entry.1)))
  }

  /** The rooms of a section, in line order; the first bad line is the error. */
  function RoomsOf(lines: seq<string>): Result<seq<Room>, ParseError>
    decreases |lines|
  {
    if lines == [] then Success([])
    else
      match RoomOf(lines[0])
      case Failure(e) => Failure(e)
      case Success(room) =>
        match RoomsOf(lines[1..])
        case Failure(e) => Failure(e)
        case Success(rest) => Success(if room.Some? then [room.value] + rest else rest)
  }

  /** Reference reading: drop the blank lines first, then read every
      remaining line as `number : capacity`. */
  function EntriesOf(lines: seq<string>): Result<seq<Room>, ParseError>
    decreases |lines|
  {
    if lines == [] then Success([])
    else
      match RoomEntry(Strip(lines[0]))
      case Failure(e) => Failure(e)
      case Success(entry) =>
        match EntriesOf(lines[1..])
        case Failure(e) => Failure(e)
        case Success(rest) => Success([Room(entry.0, entry.1)] + rest)
  }

  /** One room per line read. */
  lemma {:induction false} EntriesOfLength(lines: seq<string>)
    requires EntriesOf(lines).Success?
    ensures |EntriesOf(lines).value| == |lines|
    decreases |lines|
  {
    if lines != [] {
      EntriesOfLength(lines[1..]);
    }
  }

  lemma EntriesOfCons(line: string, lines: seq<string>)
    ensures EntriesOf([line] + lines) ==
      match RoomEntry(Strip(line))
      case Failure(e) => Failure(e)
      case Success(entry) =>
        match EntriesOf(lines)
        case Failure(e) => Failure(e)
        case Success(rest) => Success([Room(entry.0, entry.1)] + rest)
  {
    assert ([line] + lines)[1..] == lines;
  }

  /** Reading line by line and skipping blanks on the way is the same as
      dropping the blank lines and reading the rest: one room per non-blank
      line, in order, and the first bad line is the error. */
  lemma {:induction false} RoomsOfNonBlank(lines: seq<string>)
    ensures RoomsOf(lines) == EntriesOf(NonBlank(lines))
    decreases |lines|
  {
    if lines != [] {
      RoomsOfNonBlank(lines[1..]);
      if Strip(lines[0]) != [] {
        assert NonBlank(lines) == [lines[0]] + NonBlank(lines[1..]);
        EntriesOfCons(lines[0], NonBlank(lines[1..]));
      }
    }
  }

  function ToRooms(entries: seq<(string, int)>): (r: seq<Room>)
    ensures |r| == |entries|
    ensures forall k | 0 <= k < |r| :: r[k] == Room(entries[k].0, entries[k].1)
  {
    if entries == [] then [] else [Room(entries[0].0, entries[0].1)] + ToRooms(entries[1..])
  }

  lemma RoomLineRoom(entry: (string, int))
    requires PlainRoomName(entry.0)
    ensures RoomOf(RoomLine(entry)) == Success(Some(Room(entry.0, entry.1)))
  {
    RoomLineStrip(entry);
    RoomLineEntry(entry);
    RoomLineTrimmedNonEmpty(entry);
  }

  lemma RoomLineTrimmedNonEmpty(entry: (string, int))
    ensures RoomLine(entry) != []
  {
    assert RoomLine(entry)[|entry.0|] == ' ';
  }

  /** Rooms written one `number : capacity` line each read back as themselves. */
  lemma {:induction false} RoomsOfRoundTrip(entries: seq<(string, int)>)
    requires forall i | 0 <= i < |entries| :: PlainRoomName(entries[i].0)
    ensures RoomsOf(RoomLines(entries)) == Success(ToRooms(entries))
    decreases |entries|
  {
    if entries != [] {
      var lines := RoomLines(entries);
      RoomLineRoom(entries[0]);
      assert lines[1..] == RoomLines(entries[1..]);
      RoomsOfRoundTrip(entries[1..]);
      assert ToRooms(entries) == [Room(entries[0].0, entries[0].1)] + ToRooms(entries[1..]);
    }
  }

  // ---------------------------------------------------------------------------
  // parse_input_file1

  /** Which list a stripped section fills: the first of `rooms`, `courses`,
      `times` that occurs in it anywhere. */
  function SectionKind(section: string): Section {
    if Contains(section, "rooms") then RoomsSection
    else if Contains(section, "courses") then CoursesSection
    else if Contains(section, "times") then TimesSection
    else NoSection
  }

  function TimeSlots(items: seq<string>): (r: seq<TimeSlot>)
    ensures |r| == |items|
    ensures forall k | 0 <= k < |items| :: r[k].time == items[k]
  {
    if items == [] then [] else [TimeSlot(items[0])] + TimeSlots(items[1..])
  }

  /** One `;`-separated section.  A courses or times section without a second
      line fails as `split('\n')[1]` does. */
  function ParseSection(data: InputData1, raw: string): (r: Result<InputData1, ParseError>)
    ensures r.Success? && SectionKind(Strip(raw)) != RoomsSection ==> r.value.rooms == data.rooms
    ensures r.Success? && SectionKind(Strip(raw)) != CoursesSection ==> r.value.courses == data.courses
    ensures r.Success? && SectionKind(Strip(raw)) != TimesSection ==> r.value.times == data.times
  {
    var section := Strip(raw);
    if section == [] then Success(data)
    else
      var lines := Split(section, '\n');
      match SectionKind(section)
      case RoomsSection =>
        (match RoomsOf(lines[1..])
         case Failure(e) => Failure(e)
         case Success(rooms) => Success(data.(rooms := Some(rooms))))
      case CoursesSection =>
        if |lines| < 2 then Failure(MissingToken(section))
        else Success(data.(courses := Some(ListItems(lines[1]))))
      case TimesSection =>
        if |lines| < 2 then Failure(MissingToken(section))
        else Success(data.(times := Some(TimeSlots(ListItems(lines[1])))))
      case NoSection => Success(data)
  }

  function ParseSections(data: InputData1, sections: seq<string>): Result<InputData1, ParseError>
    decreases |sections|
  {
    if sections == [] then Success(data)
    else
      match ParseSection(data, sections[0])
      case Failure(e) => Failure(e)
      case Success(next) => ParseSections(next, sections[1..])
  }

  /** `parse_input_file1(content)`. */
  function ParseInputFile1(content: string): Result<InputData1, ParseError> {
    ParseSections(NoData, Split(content, ';'))
  }

  /** Blank sections, wherever they are, change nothing. */
  lemma BlankSection(data: InputData1, raw: string)
    requires AllSpace(raw)
    ensures ParseSection(data, raw) == Success(data)
  {
    StripEmpty(raw);
  }

  /** A courses or times section whose items line is missing raises, even when
      the section is otherwise well formed. */
  lemma ListSectionNeedsSecondLine(data: InputData1, raw: string)
    requires SectionKind(Strip(raw)) in {CoursesSection, TimesSection}
    requires '\n' !in Strip(raw)
    ensures ParseSection(data, raw) == Failure(MissingToken(Strip(raw)))
  {
    var section := Strip(raw);
    assert section != [] by {
      assert SectionKind([]) == NoSection;
    }
    assert |Split(section, '\n')| < 2 by {
      assert Split(section, '\n') == [section];
    }
    ListSectionShort(data, raw);
  }

  /** The sections are read one after another, each on the result of the
      ones before it. */
  lemma ParseSectionsCons(data: InputData1, raw: string, rest: seq<string>)
    requires ParseSection(data, raw).Success?
    ensures ParseSections(data, [raw] + rest) == ParseSections(ParseSection(data, raw).value, rest)
  {
    assert ([raw] + rest)[0] == raw && ([raw] + rest)[1..] == rest;
  }

  lemma ParseSectionsSingle(data: InputData1, raw: string)
    ensures ParseSections(data, [raw]) == ParseSection(data, raw)
  {
    assert [raw][1..] == [];
  }

  /** What a courses section yields does not depend on what was read before it. */
  lemma CoursesSectionIndependent(d1: InputData1, d2: InputData1, raw: string)
    requires SectionKind(Strip(raw)) == CoursesSection
    ensures ParseSection(d1, raw).Success? == ParseSection(d2, raw).Success?
    ensures ParseSection(d1, raw).Success? ==> ParseSection(d1, raw).value.courses == ParseSection(d2, raw).value.courses
  {
    var section := Strip(raw);
    assert section != [] by {
      assert SectionKind([]) == NoSection;
    }
    if |Split(section, '\n')| >= 2 {
      CoursesSectionReads(d1, raw);
      CoursesSectionReads(d2, raw);
    } else {
      ListSectionShort(d1, raw);
      ListSectionShort(d2, raw);
    }
  }

  /** A courses or times section with no second line fails, whatever was read before it. */
  lemma ListSectionShort(data: InputData1, raw: string)
    requires Strip(raw) != [] && SectionKind(Strip(raw)) in {CoursesSection, TimesSection}
    requires |Split(Strip(raw), '\n')| < 2
    ensures ParseSection(data, raw) == Failure(MissingToken(Strip(raw)))
  {
  }

  /** Of two courses sections, the later one decides. */
  lemma LaterSectionWins(data: InputData1, a: string, b: string)
    requires SectionKind(Strip(a)) == CoursesSection && SectionKind(Strip(b)) == CoursesSection
    requires ParseSection(data, a).Success?
    ensures ParseSections(data, [a, b]) == ParseSection(ParseSection(data, a).value, b)
    ensures ParseSection(data, b).Success? ==>
      ParseSections(data, [a, b]).Success? && ParseSections(data, [a, b]).value.courses == ParseSection(data, b).value.courses
  {
    var mid := ParseSection(data, a).value;
    assert ParseSections(data, [a, b]) == ParseSection(mid, b) by {
      ParseSectionsCons(data, a, [b]);
      ParseSectionsSingle(mid, b);
    }
    CoursesSectionIndependent(mid, data, b);
  }

  // ---------------------------------------------------------------------------
  // file 1 written out section by section, and read back

  /** A rooms section: the word `rooms`, then one `number : capacity` line per room. */
  function RoomsText(entries: seq<(string, int)>): string {
    Join(["rooms"] + RoomLines(entries), "\n")
  }

  /** A courses or times section: its word, then the items joined by commas. */
  function ListText(word: string, items: seq<string>): string {
    Join([word, Join(items, ",")], "\n")
  }

  /** `rooms`, `courses` and `times` sections, in that order, separated by `;`. */
  function RenderInput1(entries: seq<(string, int)>, courses: seq<string>, times: seq<string>): string {
    Join([RoomsText(entries), ListText("courses", courses), ListText("times", times)], ";")
  }

  predicate PlainEntries(entries: seq<(string, int)>) {
    forall i | 0 <= i < |entries| :: PlainRoomName(entries[i].0) && ';' !in entries[i].0
  }

  /** Items a list line can carry and give back unchanged. */
  predicate PlainItems(items: seq<string>) {
    && items != []
    && forall i | 0 <= i < |items| ::
         items[i] != [] && Trimmed(items[i]) && ',' !in items[i] && '\n' !in items[i] && ';' !in items[i]
  }

  lemma RoomLineNoSemicolon(entry: (string, int))
    requires ';' !in entry.0
    ensures ';' !in RoomLine(entry)
  {
    IntToStringPlain(entry.1);
  }

  lemma RoomLineEnd(entry: (string, int))
    requires PlainRoomName(entry.0)
    ensures RoomLine(entry) != [] && !IsSpace(RoomLine(entry)[|RoomLine(entry)| - 1])
  {
    RoomLineStrip(entry);
    RoomLineTrimmedNonEmpty(entry);
  }

  lemma RoomsTextShape(entries: seq<(string, int)>)
    requires PlainEntries(entries)
    ensures Trimmed(RoomsText(entries)) && StartsWith(RoomsText(entries), "rooms") && ';' !in RoomsText(entries)
    ensures Split(RoomsText(entries), '\n') == ["rooms"] + RoomLines(entries)
  {
    var parts := ["rooms"] + RoomLines(entries);
    assert forall i | 0 <= i < |parts| :: '\n' !in parts[i] && ';' !in parts[i] by {
      forall i | 0 <= i < |parts| ensures '\n' !in parts[i] && ';' !in parts[i] {
        if i > 0 {
          RoomLineNoNewline(entries[i - 1]);
          RoomLineNoSemicolon(entries[i - 1]);
        }
      }
    }
    assert parts[|parts| - 1] != [] && !IsSpace(parts[|parts| - 1][|parts[|parts| - 1]| - 1]) by {
      if entries != [] {
        RoomLineEnd(entries[|entries| - 1]);
      }
    }
    JoinTrimmed(parts, "\n");
    JoinEnds(parts, "\n");
    JoinExcludes(parts, "\n", ';');
    SplitJoin(parts, '\n');
  }

  lemma StartsWithContains(s: string, word: string)
    requires StartsWith(s, word)
    ensures Contains(s, word)
  {
  }

  /** How a rooms section is read, once it is known to be one. */
  lemma RoomsSectionReads(data: InputData1, raw: string)
    requires Strip(raw) != [] && SectionKind(Strip(raw)) == RoomsSection
    ensures ParseSection(data, raw) ==
      match RoomsOf(Split(Strip(raw), '\n')[1..])
      case Failure(e) => Failure(e)
      case Success(rooms) => Success(data.(rooms := Some(rooms)))
  {
  }

  /** How a courses section is read, once it is known to be one with a second line. */
  lemma CoursesSectionReads(data: InputData1, raw: string)
    requires Strip(raw) != [] && SectionKind(Strip(raw)) == CoursesSection
    requires |Split(Strip(raw), '\n')| >= 2
    ensures ParseSection(data, raw) == Success(data.(courses := Some(ListItems(Split(Strip(raw), '\n')[1]))))
  {
  }

  /** How a times section is read, once it is known to be one with a second line. */
  lemma TimesSectionReads(data: InputData1, raw: string)
    requires Strip(raw) != [] && SectionKind(Strip(raw)) == TimesSection
    requires |Split(Strip(raw), '\n')| >= 2
    ensures ParseSection(data, raw) == Success(data.(times := Some(TimeSlots(ListItems(Split(Strip(raw), '\n')[1])))))
  {
  }

  /** A rooms section reads back as its rooms. */
  lemma {:induction false} RoomsSectionRoundTrip(data: InputData1, entries: seq<(string, int)>)
    requires PlainEntries(entries)
    ensures ParseSection(data, RoomsText(entries)) == Success(data.(rooms := Some(ToRooms(entries))))
  {
    var text := RoomsText(entries);
    assert Strip(text) == text && text != [] && SectionKind(text) == RoomsSection by {
      RoomsTextShape(entries);
      StripTrimmed(text);
      StartsWithContains(text, "rooms");
    }
    assert RoomsOf(Split(text, '\n')[1..]) == Success(ToRooms(entries)) by {
      RoomsTextShape(entries);
      ConsTail("rooms", RoomLines(entries));
      RoomsOfRoundTrip(entries);
    }
    RoomsSectionReads(data, text);
  }

  lemma ItemsLineShape(items: seq<string>)
    requires PlainItems(items)
    ensures Join(items, ",") != [] && Trimmed(Join(items, ","))
    ensures '\n' !in Join(items, ",") && ';' !in Join(items, ",")
  {
    JoinEnds(items, ",");
    JoinTrimmed(items, ",");
    JoinExcludes(items, ",", '\n');
    JoinExcludes(items, ",", ';');
  }

  lemma ListTextShape(word: string, items: seq<string>)
    requires word != [] && Trimmed(word) && '\n' !in word && ';' !in word
    requires PlainItems(items)
    ensures Trimmed(ListText(word, items)) && StartsWith(ListText(word, items), word) && ';' !in ListText(word, items)
    ensures Split(ListText(word, items), '\n') == [word, Join(items, ",")]
  {
    var line := Join(items, ",");
    ItemsLineShape(items);
    var parts := [word, line];
    JoinTrimmed(parts, "\n");
    JoinEnds(parts, "\n");
    JoinExcludes(parts, "\n", ';');
    SplitJoin(parts, '\n');
  }

  lemma ListItemsOfText(word: string, items: seq<string>)
    requires word != [] && Trimmed(word) && '\n' !in word && ';' !in word
    requires PlainItems(items)
    ensures Strip(ListText(word, items)) == ListText(word, items)
    ensures Contains(ListText(word, items), word)
    ensures ListItems(Split(ListText(word, items), '\n')[1]) == items
  {
    ListTextShape(word, items);
    StripTrimmed(ListText(word, items));
    StartsWithContains(ListText(word, items), word);
    ListItemsRoundTrip(items);
  }

  /** A courses section that does not mention `rooms` reads back as its items. */
  lemma {:induction false} CoursesSectionRoundTrip(data: InputData1, courses: seq<string>)
    requires PlainItems(courses)
    requires !Contains(ListText("courses", courses), "rooms")
    ensures ParseSection(data, ListText("courses", courses)) == Success(data.(courses := Some(courses)))
  {
    var text := ListText("courses", courses);
    assert Strip(text) == text && text != [] && SectionKind(text) == CoursesSection
      && |Split(text, '\n')| >= 2 && ListItems(Split(text, '\n')[1]) == courses by {
      ListItemsOfText("courses", courses);
    }
    CoursesSectionReads(data, text);
  }

  /** A times section that mentions neither `rooms` nor `courses` reads back as its slots. */
  lemma {:induction false} TimesSectionRoundTrip(data: InputData1, times: seq<string>)
    requires PlainItems(times)
    requires !Contains(ListText("times", times), "rooms") && !Contains(ListText("times", times), "courses")
    ensures ParseSection(data, ListText("times", times)) == Success(data.(times := Some(TimeSlots(times))))
  {
    var text := ListText("times", times);
    assert Strip(text) == text && text != [] && SectionKind(text) == TimesSection
      && |Split(text, '\n')| >= 2 && ListItems(Split(text, '\n')[1]) == times by {
      ListItemsOfText("times", times);
    }
    TimesSectionReads(data, text);
  }

  lemma RenderInput1Sections(entries: seq<(string, int)>, courses: seq<string>, times: seq<string>)
    requires PlainEntries(entries) && PlainItems(courses) && PlainItems(times)
    ensures Split(RenderInput1(entries, courses, times), ';')
         == [RoomsText(entries), ListText("courses", courses), ListText("times", times)]
  {
    var parts := [RoomsText(entries), ListText("courses", courses), ListText("times", times)];
    assert ';' !in parts[0] by {
      RoomsTextShape(entries);
    }
    assert ';' !in parts[1] && ';' !in parts[2] by {
      ListTextShape("courses", courses);
      ListTextShape("times", times);
    }
    SplitJoin(parts, ';');
  }

  /** Three sections that each read without error, read in sequence. */
  lemma {:induction false} ThreeSectionsRead(data: InputData1, r: string, c: string, t: string, d1: InputData1, d2: InputData1, d3: InputData1)
    requires ParseSection(data, r) == Success(d1) && ParseSection(d1, c) == Success(d2) && ParseSection(d2, t) == Success(d3)
    ensures ParseSections(data, [r, c, t]) == Success(d3)
  {
    TripleCons(r, c, t);
    ParseSectionsCons(data, r, [c, t]);
    ParseSectionsCons(d1, c, [t]);
    ParseSectionsSingle(d2, t);
  }

  lemma {:induction false} ThreeSections(entries: seq<(string, int)>, courses: seq<string>, times: seq<string>)
    requires PlainEntries(entries) && PlainItems(courses) && PlainItems(times)
    requires !Contains(ListText("courses", courses), "rooms")
    requires !Contains(ListText("times", times), "rooms") && !Contains(ListText("times", times), "courses")
    ensures ParseSections(NoData, [RoomsText(entries), ListText("courses", courses), ListText("times", times)])
         == Success(InputData1(Some(ToRooms(entries)), Some(courses), Some(TimeSlots(times))))
  {
    var d1 := NoData.(rooms := Some(ToRooms(entries)));
    var d2 := d1.(courses := Some(courses));
    RoomsSectionRoundTrip(NoData, entries);
    CoursesSectionRoundTrip(d1, courses);
    TimesSectionRoundTrip(d2, times);
    ThreeSectionsRead(NoData, RoomsText(entries), ListText("courses", courses), ListText("times", times),
      d1, d2, d2.(times := Some(TimeSlots(times))));
  }

  /** `parse_input_file1` reads back a file written section by section, as
      long as no section mentions the word of a kind checked before its own. */
  lemma ParseInputFile1RoundTrip(entries: seq<(string, int)>, courses: seq<string>, times: seq<string>)
    requires PlainEntries(entries) && PlainItems(courses) && PlainItems(times)
    requires !Contains(ListText("courses", courses), "rooms")
    requires !Contains(ListText("times", times), "rooms") && !Contains(ListText("times", times), "courses")
    ensures ParseInputFile1(RenderInput1(entries, courses, times))
         == Success(InputData1(Some(ToRooms(entries)), Some(courses), Some(TimeSlots(times))))
  {
    RenderInput1Sections(entries, courses, times);
    ThreeSections(entries, courses, times);
  }

  // ---------------------------------------------------------------------------
  // parse_input_file2

  /** The preference list as the source builds it: the tokens after the
      enrollment joined by single spaces, split on commas, each piece
      stripped.  A blank piece is kept as an empty preference. */
  function PrefItemsAsWritten(tokens: seq<string>): (r: seq<string>)
    ensures |r| == |Split(Join(tokens, " "), ',')|
    ensures forall k | 0 <= k < |r| :: r[k] == Strip(Split(Join(tokens, " "), ',')[k])
    ensures forall k | 0 <= k < |r| :: Trimmed(r[k]) && ',' !in r[k]
  {
    CleanItems(Split(Join(tokens, " "), ','))
  }

  /** The preference list with blank pieces dropped, as the lists of file 1
      are built, so that a trailing comma adds no preference. */
  function PrefItems(tokens: seq<string>): (r: seq<string>)
    ensures |r| <= |Split(Join(tokens, " "), ',')|
    ensures forall k | 0 <= k < |r| :: r[k] != [] && Trimmed(r[k]) && ',' !in r[k]
  {
    KeepItems(Split(Join(tokens, " "), ','))
  }

  /** A stripped piece is blank exactly when it is empty. */
  lemma StripBlank(s: string)
    ensures Strip(Strip(s)) == Strip(s)
  {
    StripTrimmed(Strip(s));
  }

  lemma {:induction false} CleanItemsCons(p: string, xs: seq<string>)
    requires ',' !in p && forall i | 0 <= i < |xs| :: ',' !in xs[i]
    ensures forall i | 0 <= i < |[p] + xs| :: ',' !in ([p] + xs)[i]
    ensures CleanItems([p] + xs) == [Strip(p)] + CleanItems(xs)
  {
    var all := [p] + xs;
    assert forall i | 1 <= i < |all| :: all[i] == xs[i - 1];
    var l := CleanItems(all);
    var m := [Strip(p)] + CleanItems(xs);
    forall k | 0 <= k < |l| ensures l[k] == m[k] {
      if k > 0 {
        assert m[k] == CleanItems(xs)[k - 1];
      }
    }
    assert l == m;
  }

  /** The pieces the filter keeps hold no comma when no piece does. */
  lemma NonBlankCommaFree(parts: seq<string>)
    requires forall i | 0 <= i < |parts| :: ',' !in parts[i]
    ensures forall i | 0 <= i < |NonBlank(parts)| :: ',' !in NonBlank(parts)[i]
  {
  }

  /** Cleaning the pieces and then dropping the blank ones is the same as
      dropping the blank pieces and cleaning the rest. */
  lemma {:induction false} NonBlankCleanItems(parts: seq<string>)
    requires forall i | 0 <= i < |parts| :: ',' !in parts[i]
    ensures forall i | 0 <= i < |NonBlank(parts)| :: ',' !in NonBlank(parts)[i]
    ensures NonBlank(CleanItems(parts)) == CleanItems(NonBlank(parts))
    decreases |parts|
  {
    NonBlankCommaFree(parts);
    if parts != [] {
      var p := parts[0];
      var rest := parts[1..];
      assert parts == [p] + rest;
      NonBlankCleanItems(rest);
      NonBlankCommaFree(rest);
      var cr := CleanItems(rest);
      CleanItemsCons(p, rest);
      assert NonBlank([Strip(p)] + cr) == (if Strip(p) == [] then [] else [Strip(p)]) + NonBlank(cr) by {
        NonBlankAppend([Strip(p)], cr);
        NonBlankSingle(Strip(p));
        StripBlank(p);
      }
      assert NonBlank(parts) == (if Strip(p) == [] then [] else [p]) + NonBlank(rest) by {
        NonBlankAppend([p], rest);
        NonBlankSingle(p);
      }
      if Strip(p) == [] {
        assert [] + NonBlank(rest) == NonBlank(rest);
        assert [] + NonBlank(cr) == NonBlank(cr);
      } else {
        CleanItemsCons(p, NonBlank(rest));
      }
    }
  }

  /** Pieces that are none of them blank all pass the filter. */
  lemma {:induction false} NonBlankAll(items: seq<string>)
    requires forall i | 0 <= i < |items| :: Strip(items[i]) != []
    ensures NonBlank(items) == items
    decreases |items|
  {
    if items != [] {
      NonBlankAll(items[1..]);
      HeadTail(items);
    }
  }

  /** The corrected preferences are those read as written with the blank
      ones left out, the rest kept in order. */
  lemma PrefItemsDropsBlanks(tokens: seq<string>)
    ensures PrefItems(tokens) == NonBlank(PrefItemsAsWritten(tokens))
  {
    NonBlankCleanItems(Split(Join(tokens, " "), ','));
  }

  /** Where no comma piece is blank the two readings agree. */
  lemma PrefItemsWithoutBlanks(tokens: seq<string>)
    requires forall k | 0 <= k < |PrefItemsAsWritten(tokens)| :: PrefItemsAsWritten(tokens)[k] != []
    ensures PrefItems(tokens) == PrefItemsAsWritten(tokens)
  {
    var items := PrefItemsAsWritten(tokens);
    forall k | 0 <= k < |items| ensures Strip(items[k]) != [] {
      StripTrimmed(items[k]);
    }
    PrefItemsDropsBlanks(tokens);
    NonBlankAll(items);
  }

  /** A course from the tokens of a line with at least two of them. */
  function CourseFields(parts: seq<string>): (r: Result<Course, ParseError>)
    requires |parts| >= 2
    ensures r.Success? <==> IsIntLiteral(parts[1])
    ensures r.Success? ==> r.value.number == parts[0] && ParseInt(parts[1]) == Some(r.value.enrollment)
    ensures r.Success? && |parts| == 2 ==> r.value.preferences == []
    ensures r.Success? && |parts| > 2 ==> r.value.preferences == NonBlank(PrefItemsAsWritten(parts[2..]))
    ensures r.Failure? ==> r.error == NotAnInteger(parts[1])
  {
    match ParseInt(parts[1])
    case None => Failure(NotAnInteger(parts[1]))
    case Some(e) =>
      if |parts| > 2 then
        PrefItemsDropsBlanks(parts[2..]);
        Success(Course(parts[0], e, PrefItems(parts[2..])))
      else
        Success(Course(parts[0], e, []))
  }

  /** One line of file 2 with the corrected preference reading: nothing for
      a line with fewer than two tokens. */
  function CourseOf(line: string): (r: Result<Option<Course>, ParseError>)
    ensures r == Success(None) <==> |SplitWs(line)| < 2
    ensures r.Failure? <==> |SplitWs(line)| >= 2 && !IsIntLiteral(SplitWs(line)[1])
    ensures r.Failure? ==> r.error == NotAnInteger(SplitWs(line)[1])
    ensures r.Success? && r.value.Some? ==>
      && r.value.value.number == SplitWs(line)[0]
      && ParseInt(SplitWs(line)[1]) == Some(r.value.value.enrollment)
      && r.value.value.preferences == (if |SplitWs(line)| > 2 then NonBlank(PrefItemsAsWritten(SplitWs(line)[2..])) else [])
  {
    var parts := SplitWs(line);
    if |parts| < 2 then Success(None)
    else
      match CourseFields(parts)
      case Failure(e) => Failure(e)
      case Success(c) => Success(Some(c))
  }

  /** The lines of a file body: an error exactly when some line fails, and
      otherwise at most one course per line. */
  function CoursesOf(lines: seq<string>): (r: Result<seq<Course>, ParseError>)
    ensures r.Failure? <==> exists i | 0 <= i < |lines| :: CourseOf(lines[i]).Failure?
    ensures r.Success? ==> |r.value| <= |lines|
    decreases |lines|
  {
    if lines == [] then Success([])
    else
      LineFailsCons(lines);
      match CourseOf(lines[0])
      case Failure(e) => Failure(e)
      case Success(c) =>
        match CoursesOf(lines[1..])
        case Failure(e) => Failure(e)
        case Success(rest) => Success(if c.Some? then [c.value] + rest else rest)
  }

  /** Some line fails exactly when the first one does or a later one does. */
  lemma LineFailsCons(lines: seq<string>)
    requires lines != []
    ensures (exists i | 0 <= i < |lines| :: CourseOf(lines[i]).Failure?) <==>
      CourseOf(lines[0]).Failure? || exists i | 0 <= i < |lines[1..]| :: CourseOf(lines[1..][i]).Failure?
  {
    assert forall i | 1 <= i < |lines| :: lines[i] == lines[1..][i - 1];
  }

  /** `parse_input_file2(content)` with the corrected preference reading:
      the first line is a header and is never read. */
  function ParseInputFile2(content: string): (r: Result<seq<Course>, ParseError>)
    ensures var body := Split(Strip(content), '\n')[1..];
      r.Failure? <==> exists i | 0 <= i < |body| :: CourseOf(body[i]).Failure?
    ensures r.Success? ==> |r.value| < |Split(Strip(content), '\n')|
  {
    CoursesOf(Split(Strip(content), '\n')[1..])
  }

  /** The token list of every line, in order. */
  function LineTokens(lines: seq<string>): (r: seq<seq<string>>)
    ensures |r| == |lines|
    ensures forall i | 0 <= i < |lines| :: r[i] == SplitWs(lines[i])
    decreases |lines|
  {
    if lines == [] then [] else [SplitWs(lines[0])] + LineTokens(lines[1..])
  }

  /** The token lists of the lines with at least two tokens, in order. */
  function TokenRows(lines: seq<string>): (r: seq<seq<string>>)
    ensures |r| <= |lines|
    ensures forall k | 0 <= k < |r| :: |r[k]| >= 2
    ensures forall k | 0 <= k < |r| :: r[k] in LineTokens(lines)
    decreases |lines|
  {
    if lines == [] then []
    else
      var rest := TokenRows(lines[1..]);
      if |SplitWs(lines[0])| < 2 then rest else [SplitWs(lines[0])] + rest
  }

  /** Rows are found line by line: no line's tokens are lost or reordered. */
  lemma {:induction false} TokenRowsAppend(a: seq<string>, b: seq<string>)
    ensures TokenRows(a + b) == TokenRows(a) + TokenRows(b)
    decreases |a|
  {
    if a == [] {
      assert a + b == b;
    } else {
      assert (a + b)[1..] == a[1..] + b;
      assert (a + b)[0] == a[0];
      TokenRowsAppend(a[1..], b);
    }
  }

  /** A line yields its tokens exactly when it has two or more of them. */
  lemma TokenRowsSingle(line: string)
    ensures TokenRows([line]) == if |SplitWs(line)| < 2 then [] else [SplitWs(line)]
  {
    assert [line][1..] == [];
  }

  /** Reference reading: every row read as a course, the first bad one failing. */
  function FieldsOf(rows: seq<seq<string>>): Result<seq<Course>, ParseError>
    requires forall k | 0 <= k < |rows| :: |rows[k]| >= 2
    decreases |rows|
  {
    if rows == [] then Success([])
    else
      match CourseFields(rows[0])
      case Failure(e) => Failure(e)
      case Success(c) =>
        match FieldsOf(rows[1..])
        case Failure(e) => Failure(e)
        case Success(rest) => Success([c] + rest)
  }

  /** One course per row read. */
  lemma {:induction false} FieldsOfLength(rows: seq<seq<string>>)
    requires forall k | 0 <= k < |rows| :: |rows[k]| >= 2
    requires FieldsOf(rows).Success?
    ensures |FieldsOf(rows).value| == |rows|
    decreases |rows|
  {
    if rows != [] {
      FieldsOfLength(rows[1..]);
    }
  }

  lemma FieldsOfCons(row: seq<string>, rows: seq<seq<string>>)
    requires |row| >= 2 && forall k | 0 <= k < |rows| :: |rows[k]| >= 2
    ensures forall k | 0 <= k < |[row] + rows| :: |([row] + rows)[k]| >= 2
    ensures FieldsOf([row] + rows) ==
      match CourseFields(row)
      case Failure(e) => Failure(e)
      case Success(c) =>
        match FieldsOf(rows)
        case Failure(e) => Failure(e)
        case Success(rest) => Success([c] + rest)
  {
    assert ([row] + rows)[0] == row && ([row] + rows)[1..] == rows;
  }

  /** Skipping short lines on the way is the same as keeping only the lines
      with two or more tokens and reading all of them: one course per such
      line, in order, and the first bad one is the error. */
  lemma {:induction false} CoursesOfRows(lines: seq<string>)
    ensures CoursesOf(lines) == FieldsOf(TokenRows(lines))
    decreases |lines|
  {
    if lines != [] {
      CoursesOfRows(lines[1..]);
      if |SplitWs(lines[0])| >= 2 {
        FieldsOfCons(SplitWs(lines[0]), TokenRows(lines[1..]));
      }
    }
  }

  /** The lines `parse_input_file2` reads: all but the first of the stripped text. */
  lemma BodyLines(header: string, body: string)
    requires header != [] && !IsSpace(header[0]) && '\n' !in header
    requires body != [] && !IsSpace(body[|body| - 1])
    ensures Split(Strip(header + "\n" + body), '\n')[1..] == Split(body, '\n')
  {
    LinesTrimmed(header, body);
    AfterFirstLine(header, body);
  }

  lemma AfterFirstLine(header: string, body: string)
    requires '\n' !in header
    ensures Split(header + "\n" + body, '\n')[1..] == Split(body, '\n')
  {
    SplitAtFirst(header, '\n', body);
    ConsTail(header, Split(body, '\n'));
  }

  lemma LinesTrimmed(header: string, body: string)
    requires header != [] && !IsSpace(header[0])
    requires body != [] && !IsSpace(body[|body| - 1])
    ensures Strip(header + "\n" + body) == header + "\n" + body
  {
    var s := header + "\n" + body;
    assert s[0] == header[0] && s[|s| - 1] == body[|body| - 1];
    StripTrimmed(s);
  }

  /** Whatever the first line says, only the lines after it are read. */
  lemma HeaderIgnored(header: string, body: string)
    requires header != [] && !IsSpace(header[0]) && '\n' !in header
    requires body != [] && !IsSpace(body[|body| - 1])
    ensures ParseInputFile2(header + "\n" + body) == CoursesOf(Split(body, '\n'))
  {
    BodyLines(header, body);
  }

  /** A file of one line, the header, holds no courses. */
  lemma HeaderOnly(content: string)
    requires '\n' !in Strip(content)
    ensures ParseInputFile2(content) == Success([])
  {
    assert Split(Strip(content), '\n') == [Strip(content)];
  }

  // ---------------------------------------------------------------------------
  // file 2 written out one course per line, and read back

  /** A course whose number and preferences are whitespace-free and whose
      preferences hold no comma. */
  predicate PlainCourse(c: Course) {
    && IsToken(c.number)
    && forall k | 0 <= k < |c.preferences| :: IsToken(c.preferences[k]) && ',' !in c.preferences[k]
  }

  /** The preferences written as the file-2 template writes them,
      `MWF9, MWF10, TT9`: one token each, every one but the last followed
      by a comma. */
  function PrefTokens(prefs: seq<string>): (r: seq<string>)
    ensures |r| == |prefs|
    decreases |prefs|
  {
    if |prefs| <= 1 then prefs else [prefs[0] + ","] + PrefTokens(prefs[1..])
  }

  /** A course as a line of the shape `course enrollment pref, pref, ...`. */
  function AsEntry(c: Course): (string, Details) {
    (c.number, Details(c.enrollment, PrefTokens(c.preferences)))
  }

  function AsEntries(courses: seq<Course>): (r: seq<(string, Details)>)
    ensures |r| == |courses|
    ensures forall k | 0 <= k < |r| :: r[k] == AsEntry(courses[k])
  {
    if courses == [] then [] else [AsEntry(courses[0])] + AsEntries(courses[1..])
  }

  /** The header line, then one line per course. */
  function RenderInput2(header: string, courses: seq<Course>): string {
    Join([header] + CourseTexts(AsEntries(courses)), "\n")
  }

  /** A token followed by a comma is still a token. */
  lemma CommaAfterToken(t: string)
    requires IsToken(t)
    ensures IsToken(t + ",")
  {
    assert forall k | 0 <= k < |t| :: (t + ",")[k] == t[k];
  }

  lemma {:induction false} PrefTokensPlain(prefs: seq<string>)
    requires forall k | 0 <= k < |prefs| :: IsToken(prefs[k])
    ensures forall k | 0 <= k < |PrefTokens(prefs)| :: IsToken(PrefTokens(prefs)[k])
    decreases |prefs|
  {
    if |prefs| > 1 {
      PrefTokensPlain(prefs[1..]);
      CommaAfterToken(prefs[0]);
      var r := PrefTokens(prefs);
      assert r == [prefs[0] + ","] + PrefTokens(prefs[1..]);
      assert forall k | 1 <= k < |r| :: r[k] == PrefTokens(prefs[1..])[k - 1];
    }
  }

  /** The tokens joined by single spaces are the preferences joined by `, `. */
  lemma {:induction false} PrefTokensJoin(prefs: seq<string>)
    requires prefs != []
    ensures Join(PrefTokens(prefs), " ") == Join(prefs, ", ")
    decreases |prefs|
  {
    if |prefs| > 1 {
      var rest := prefs[1..];
      var tokens := PrefTokens(prefs);
      PrefTokensJoin(rest);
      assert tokens[0] == prefs[0] + "," && tokens[1..] == PrefTokens(rest);
      assert Join(tokens, " ") == (prefs[0] + ",") + " " + Join(rest, ", ");
      assert (prefs[0] + ",") + " " + Join(rest, ", ") == prefs[0] + ", " + Join(rest, ", ");
    }
  }

  lemma TokenTrimmed(t: string)
    requires IsToken(t)
    ensures t != [] && Trimmed(t)
  {
    assert !IsSpace(t[0]) && !IsSpace(t[|t| - 1]);
  }

  /** A padded token stripped is the token, and holds no comma when the token does not. */
  lemma PaddedToken(pad: string, t: string)
    requires AllSpace(pad) && IsToken(t) && ',' !in t
    ensures Strip(pad + t) == t && ',' !in pad + t
  {
    TokenTrimmed(t);
    assert pad + t + "" == pad + t;
    StripPadded(pad, t, "");
    assert forall k | 0 <= k < |pad| :: IsSpace(pad[k]);
  }

  lemma CommaSpaceRegroup(pad: string, p: string, tail: string)
    ensures pad + (p + ", " + tail) == (pad + p) + [','] + (" " + tail)
  {
    assert ", " == [','] + " ";
  }

  /** The pieces of `pad + "a, b, c"` between its commas: the first
      preference after the padding, every later one after a space. */
  function SpacedPieces(pad: string, prefs: seq<string>): (r: seq<string>)
    requires prefs != []
    ensures |r| == |prefs|
    decreases |prefs|
  {
    if |prefs| == 1 then [pad + prefs[0]] else [pad + prefs[0]] + SpacedPieces(" ", prefs[1..])
  }

  lemma {:induction false} SpacedSplit(pad: string, prefs: seq<string>)
    requires prefs != [] && ',' !in pad
    requires forall k | 0 <= k < |prefs| :: ',' !in prefs[k]
    ensures Split(pad + Join(prefs, ", "), ',') == SpacedPieces(pad, prefs)
    decreases |prefs|
  {
    var p := prefs[0];
    if |prefs| == 1 {
      assert pad + Join(prefs, ", ") == pad + p;
    } else {
      var rest := prefs[1..];
      var tail := Join(rest, ", ");
      assert Join(prefs, ", ") == p + ", " + tail;
      CommaSpaceRegroup(pad, p, tail);
      SplitAtFirst(pad + p, ',', " " + tail);
      SpacedSplit(" ", rest);
    }
  }

  /** Piece `k` is preference `k` after the padding or after a space. */
  lemma {:induction false} SpacedPieceAt(pad: string, prefs: seq<string>, k: nat)
    requires k < |prefs|
    ensures SpacedPieces(pad, prefs)[k] == (if k == 0 then pad else " ") + prefs[k]
    decreases k
  {
    if k > 0 {
      SpacedPieceAt(" ", prefs[1..], k - 1);
      assert SpacedPieces(pad, prefs)[k] == SpacedPieces(" ", prefs[1..])[k - 1];
      if k - 1 == 0 {
        assert prefs[1..][0] == prefs[k];
      } else {
        assert prefs[1..][k - 1] == prefs[k];
      }
    }
  }

  /** Each spaced piece strips to its preference. */
  lemma SpacedPiecesStrip(pad: string, prefs: seq<string>)
    requires AllSpace(pad) && prefs != []
    requires forall k | 0 <= k < |prefs| :: IsToken(prefs[k]) && ',' !in prefs[k]
    ensures forall k | 0 <= k < |prefs| :: Strip(SpacedPieces(pad, prefs)[k]) == prefs[k]
  {
    forall k | 0 <= k < |prefs| ensures Strip(SpacedPieces(pad, prefs)[k]) == prefs[k] {
      SpacedPieceAt(pad, prefs, k);
      if k == 0 {
        PaddedToken(pad, prefs[k]);
      } else {
        assert AllSpace(" ");
        PaddedToken(" ", prefs[k]);
      }
    }
  }

  /** The template's way of writing preferences reads back as them when
      read as written. */
  lemma {:induction false} PrefItemsAsWrittenOfTokens(prefs: seq<string>)
    requires prefs != []
    requires forall k | 0 <= k < |prefs| :: IsToken(prefs[k]) && ',' !in prefs[k]
    ensures PrefItemsAsWritten(PrefTokens(prefs)) == prefs
  {
    var tokens := PrefTokens(prefs);
    var pieces := SpacedPieces("", prefs);
    assert Split(Join(tokens, " "), ',') == pieces by {
      PrefTokensJoin(prefs);
      assert "" + Join(prefs, ", ") == Join(prefs, ", ");
      SpacedSplit("", prefs);
    }
    var items := PrefItemsAsWritten(tokens);
    SpacedPiecesStrip("", prefs);
    forall k | 0 <= k < |prefs| ensures items[k] == prefs[k] {
      assert items[k] == Strip(pieces[k]);
    }
  }

  /** ... and read with blank pieces dropped, since none is blank. */
  lemma {:induction false} PrefItemsOfTokens(prefs: seq<string>)
    requires prefs != []
    requires forall k | 0 <= k < |prefs| :: IsToken(prefs[k]) && ',' !in prefs[k]
    ensures PrefItems(PrefTokens(prefs)) == prefs
  {
    var tokens := PrefTokens(prefs);
    PrefItemsAsWrittenOfTokens(prefs);
    forall k | 0 <= k < |prefs| ensures PrefItemsAsWritten(tokens)[k] != [] {
      TokenTrimmed(prefs[k]);
    }
    PrefItemsWithoutBlanks(tokens);
  }

  lemma AsEntryPlain(c: Course)
    requires PlainCourse(c)
    ensures PlainEntry(AsEntry(c))
  {
    PrefTokensPlain(c.preferences);
  }

  /** One course line reads back as its course. */
  lemma {:induction false} CourseOfRoundTrip(c: Course)
    requires PlainCourse(c)
    ensures CourseOf(CourseText(AsEntry(c))) == Success(Some(c))
  {
    var entry := AsEntry(c);
    var tokens := CourseTokens(entry);
    assert SplitWs(CourseText(entry)) == tokens by {
      AsEntryPlain(c);
      CourseTextSplits(entry);
    }
    assert ParseInt(tokens[1]) == Some(c.enrollment) by {
      ParseIntToString(c.enrollment);
    }
    if c.preferences != [] {
      assert PrefItems(tokens[2..]) == c.preferences by {
        assert tokens[2..] == PrefTokens(c.preferences);
        PrefItemsOfTokens(c.preferences);
      }
    }
    assert CourseFields(tokens) == Success(c);
  }

  lemma CoursesOfCons(line: string, c: Course, lines: seq<string>)
    requires CourseOf(line) == Success(Some(c))
    ensures CoursesOf([line] + lines) ==
      match CoursesOf(lines)
      case Failure(e) => Failure(e)
      case Success(rest) => Success([c] + rest)
  {
    ConsTail(line, lines);
  }

  lemma {:induction false} CoursesOfRoundTrip(courses: seq<Course>)
    requires forall k | 0 <= k < |courses| :: PlainCourse(courses[k])
    ensures CoursesOf(CourseTexts(AsEntries(courses))) == Success(courses)
    decreases |courses|
  {
    if courses != [] {
      var lines := CourseTexts(AsEntries(courses));
      assert lines == [CourseText(AsEntry(courses[0]))] + CourseTexts(AsEntries(courses[1..])) by {
        assert AsEntries(courses) == [AsEntry(courses[0])] + AsEntries(courses[1..]);
      }
      CourseOfRoundTrip(courses[0]);
      CoursesOfCons(CourseText(AsEntry(courses[0])), courses[0], CourseTexts(AsEntries(courses[1..])));
      CoursesOfRoundTrip(courses[1..]);
      HeadTail(courses);
    }
  }

  lemma CourseLineShape(c: Course)
    requires PlainCourse(c)
    ensures '\n' !in CourseText(AsEntry(c)) && CourseText(AsEntry(c)) != []
    ensures !IsSpace(CourseText(AsEntry(c))[0]) && !IsSpace(CourseText(AsEntry(c))[|CourseText(AsEntry(c))| - 1])
  {
    AsEntryPlain(c);
    CourseTextShape(AsEntry(c));
  }

  /** The course lines hold no line break. */
  lemma CourseLinesPlain(courses: seq<Course>)
    requires forall k | 0 <= k < |courses| :: PlainCourse(courses[k])
    ensures forall i | 0 <= i < |courses| :: '\n' !in CourseTexts(AsEntries(courses))[i]
  {
    forall i | 0 <= i < |courses| ensures '\n' !in CourseTexts(AsEntries(courses))[i] {
      CourseLineShape(courses[i]);
    }
  }

  /** The rendered course lines form a non-empty trimmed text. */
  lemma CourseLinesTrimmed(courses: seq<Course>)
    requires courses != []
    requires forall k | 0 <= k < |courses| :: PlainCourse(courses[k])
    ensures RenderFile2(AsEntries(courses)) != [] && Trimmed(RenderFile2(AsEntries(courses)))
  {
    var lines := CourseTexts(AsEntries(courses));
    CourseLineShape(courses[0]);
    CourseLineShape(courses[|courses| - 1]);
    JoinEnds(lines, "\n");
    JoinTrimmed(lines, "\n");
  }

  /** The course lines of a rendered file: non-empty, trimmed, one per line. */
  lemma CourseLinesShape(courses: seq<Course>)
    requires courses != []
    requires forall k | 0 <= k < |courses| :: PlainCourse(courses[k])
    ensures RenderFile2(AsEntries(courses)) != []
    ensures Trimmed(RenderFile2(AsEntries(courses)))
    ensures Split(RenderFile2(AsEntries(courses)), '\n') == CourseTexts(AsEntries(courses))
  {
    CourseLinesTrimmed(courses);
    CourseLinesPlain(courses);
    SplitJoin(CourseTexts(AsEntries(courses)), '\n');
  }

  /** `parse_input_file2` reads back a file written one course per line
      under any one-line header. */
  lemma ParseInputFile2RoundTrip(header: string, courses: seq<Course>)
    requires header != [] && Trimmed(header) && '\n' !in header
    requires forall k | 0 <= k < |courses| :: PlainCourse(courses[k])
    ensures ParseInputFile2(RenderInput2(header, courses)) == Success(courses)
  {
    var lines := CourseTexts(AsEntries(courses));
    if courses == [] {
      assert RenderInput2(header, courses) == header;
      StripTrimmed(header);
      HeaderOnly(header);
    } else {
      var body := RenderFile2(AsEntries(courses));
      assert RenderInput2(header, courses) == header + "\n" + body by {
        ConsTail(header, lines);
      }
      CourseLinesShape(courses);
      HeaderIgnored(header, body);
      CoursesOfRoundTrip(courses);
    }
  }

  // ---------------------------------------------------------------------------
  // a trailing comma after the last preference

  /** One line of file 2 exactly as the source reads it, blank preference
      pieces included. */
  function CourseOfAsWritten(line: string): (r: Result<Option<Course>, ParseError>)
    ensures r == Success(None) <==> |SplitWs(line)| < 2
    ensures r.Failure? <==> |SplitWs(line)| >= 2 && !IsIntLiteral(SplitWs(line)[1])
    ensures r.Failure? ==> r.error == NotAnInteger(SplitWs(line)[1])
    ensures r.Success? && r.value.Some? ==>
      && r.value.value.number == SplitWs(line)[0]
      && ParseInt(SplitWs(line)[1]) == Some(r.value.value.enrollment)
      && r.value.value.preferences == (if |SplitWs(line)| > 2 then PrefItemsAsWritten(SplitWs(line)[2..]) else [])
    ensures r.Success? && r.value.Some? ==> CleanPrefs(r.value.value)
  {
    var parts := SplitWs(line);
    if |parts| < 2 then Success(None)
    else
      match ParseInt(parts[1])
      case None => Failure(NotAnInteger(parts[1]))
      case Some(e) => Success(Some(Course(parts[0], e, if |parts| > 2 then PrefItemsAsWritten(parts[2..]) else [])))
  }

  /** Preferences that are stripped and hold no comma, blank ones allowed. */
  predicate CleanPrefs(c: Course) {
    forall j | 0 <= j < |c.preferences| :: Trimmed(c.preferences[j]) && ',' !in c.preferences[j]
  }

  function CoursesOfAsWritten(lines: seq<string>): (r: Result<seq<Course>, ParseError>)
    ensures r.Failure? <==> exists i | 0 <= i < |lines| :: CourseOfAsWritten(lines[i]).Failure?
    ensures r.Success? ==> |r.value| <= |lines|
    decreases |lines|
  {
    if lines == [] then Success([])
    else
      AsWrittenLineFailsCons(lines);
      match CourseOfAsWritten(lines[0])
      case Failure(e) => Failure(e)
      case Success(c) =>
        match CoursesOfAsWritten(lines[1..])
        case Failure(e) => Failure(e)
        case Success(rest) => Success(if c.Some? then [c.value] + rest else rest)
  }

  lemma AsWrittenLineFailsCons(lines: seq<string>)
    requires lines != []
    ensures (exists i | 0 <= i < |lines| :: CourseOfAsWritten(lines[i]).Failure?) <==>
      CourseOfAsWritten(lines[0]).Failure? || exists i | 0 <= i < |lines[1..]| :: CourseOfAsWritten(lines[1..][i]).Failure?
  {
    assert forall i | 1 <= i < |lines| :: lines[i] == lines[1..][i - 1];
  }

  /** One step of the as-written line loop on a file it reads without error. */
  lemma CoursesOfAsWrittenStep(lines: seq<string>)
    requires lines != [] && CoursesOfAsWritten(lines).Success?
    ensures CourseOfAsWritten(lines[0]).Success? && CoursesOfAsWritten(lines[1..]).Success?
    ensures CoursesOfAsWritten(lines).value ==
      (if CourseOfAsWritten(lines[0]).value.Some? then [CourseOfAsWritten(lines[0]).value.value] else [])
      + CoursesOfAsWritten(lines[1..]).value
  {
    if CourseOfAsWritten(lines[0]).value.None? {
      assert [] + CoursesOfAsWritten(lines[1..]).value == CoursesOfAsWritten(lines[1..]).value;
    }
  }

  /** Every preference the source reads is stripped and comma-free. */
  lemma {:induction false} CoursesOfAsWrittenClean(lines: seq<string>)
    requires CoursesOfAsWritten(lines).Success?
    ensures forall k | 0 <= k < |CoursesOfAsWritten(lines).value| :: CleanPrefs(CoursesOfAsWritten(lines).value[k])
    decreases |lines|
  {
    if lines != [] {
      CoursesOfAsWrittenStep(lines);
      CoursesOfAsWrittenClean(lines[1..]);
      var rest := CoursesOfAsWritten(lines[1..]).value;
      var head := CourseOfAsWritten(lines[0]).value;
      var r := CoursesOfAsWritten(lines).value;
      var front := if head.Some? then [head.value] else [];
      assert forall k | 0 <= k < |front| :: CleanPrefs(front[k]);
      forall k | 0 <= k < |r| ensures CleanPrefs(r[k]) {
        if k >= |front| {
          assert r[k] == rest[k - |front|];
        } else {
          assert r[k] == front[k];
        }
      }
    }
  }

  /** `parse_input_file2(content)` exactly as written. */
  function ParseInputFile2AsWritten(content: string): (r: Result<seq<Course>, ParseError>)
    ensures var body := Split(Strip(content), '\n')[1..];
      r.Failure? <==> exists i | 0 <= i < |body| :: CourseOfAsWritten(body[i]).Failure?
    ensures r.Success? ==> |r.value| < |Split(Strip(content), '\n')|
  {
    CoursesOfAsWritten(Split(Strip(content), '\n')[1..])
  }

  /** One course line reads back as its course under the source's own reading. */
  lemma {:induction false} CourseOfAsWrittenRoundTrip(c: Course)
    requires PlainCourse(c)
    ensures CourseOfAsWritten(CourseText(AsEntry(c))) == Success(Some(c))
  {
    var entry := AsEntry(c);
    var tokens := CourseTokens(entry);
    assert SplitWs(CourseText(entry)) == tokens by {
      AsEntryPlain(c);
      CourseTextSplits(entry);
    }
    assert ParseInt(tokens[1]) == Some(c.enrollment) by {
      ParseIntToString(c.enrollment);
    }
    if c.preferences != [] {
      assert PrefItemsAsWritten(tokens[2..]) == c.preferences by {
        assert tokens[2..] == PrefTokens(c.preferences);
        PrefItemsAsWrittenOfTokens(c.preferences);
      }
    }
  }

  lemma CoursesOfAsWrittenCons(line: string, c: Course, lines: seq<string>)
    requires CourseOfAsWritten(line) == Success(Some(c))
    ensures CoursesOfAsWritten([line] + lines) ==
      match CoursesOfAsWritten(lines)
      case Failure(e) => Failure(e)
      case Success(rest) => Success([c] + rest)
  {
    ConsTail(line, lines);
  }

  lemma {:induction false} CoursesOfAsWrittenRoundTrip(courses: seq<Course>)
    requires forall k | 0 <= k < |courses| :: PlainCourse(courses[k])
    ensures CoursesOfAsWritten(CourseTexts(AsEntries(courses))) == Success(courses)
    decreases |courses|
  {
    if courses != [] {
      var lines := CourseTexts(AsEntries(courses));
      assert lines == [CourseText(AsEntry(courses[0]))] + CourseTexts(AsEntries(courses[1..])) by {
        assert AsEntries(courses) == [AsEntry(courses[0])] + AsEntries(courses[1..]);
      }
      CourseOfAsWrittenRoundTrip(courses[0]);
      CoursesOfAsWrittenCons(CourseText(AsEntry(courses[0])), courses[0], CourseTexts(AsEntries(courses[1..])));
      CoursesOfAsWrittenRoundTrip(courses[1..]);
      HeadTail(courses);
    }
  }

  /** `parse_input_file2`, as written, reads back a file written one course
      per line under any one-line header. */
  lemma ParseInputFile2AsWrittenRoundTrip(header: string, courses: seq<Course>)
    requires header != [] && Trimmed(header) && '\n' !in header
    requires forall k | 0 <= k < |courses| :: PlainCourse(courses[k])
    ensures ParseInputFile2AsWritten(RenderInput2(header, courses)) == Success(courses)
  {
    var lines := CourseTexts(AsEntries(courses));
    if courses == [] {
      assert RenderInput2(header, courses) == header;
      StripTrimmed(header);
      assert Split(header, '\n') == [header];
    } else {
      var body := RenderFile2(AsEntries(courses));
      assert RenderInput2(header, courses) == header + "\n" + body by {
        ConsTail(header, lines);
      }
      CourseLinesShape(courses);
      BodyLines(header, body);
      CoursesOfAsWrittenRoundTrip(courses);
    }
  }

  /** A course with its blank preferences left out. */
  function WithoutBlankPrefs(c: Course): Course {
    c.(preferences := NonBlank(c.preferences))
  }

  function AllWithoutBlankPrefs(courses: seq<Course>): (r: seq<Course>)
    ensures |r| == |courses|
    ensures forall k | 0 <= k < |r| :: r[k] == WithoutBlankPrefs(courses[k])
  {
    if courses == [] then [] else [WithoutBlankPrefs(courses[0])] + AllWithoutBlankPrefs(courses[1..])
  }

  /** A line read with the corrected preferences is the line read as
      written with its blank preferences left out; number, enrollment,
      skipped lines and errors are the same. */
  lemma CourseOfDropsBlanks(line: string)
    ensures CourseOf(line) ==
      match CourseOfAsWritten(line)
      case Failure(e) => Failure(e)
      case Success(None) => Success(None)
      case Success(Some(c)) => Success(Some(WithoutBlankPrefs(c)))
  {
    var parts := SplitWs(line);
    if |parts| > 2 {
      PrefItemsDropsBlanks(parts[2..]);
    } else {
      assert NonBlank([]) == [];
    }
  }

  /** The same, line by line over a whole file body. */
  lemma {:induction false} CoursesOfDropsBlanks(lines: seq<string>)
    ensures CoursesOf(lines) ==
      match CoursesOfAsWritten(lines)
      case Failure(e) => Failure(e)
      case Success(cs) => Success(AllWithoutBlankPrefs(cs))
    decreases |lines|
  {
    if lines != [] {
      CourseOfDropsBlanks(lines[0]);
      CoursesOfDropsBlanks(lines[1..]);
      match CoursesOfAsWritten(lines[1..])
      case Failure(_) =>
      case Success(rest) =>
        match CourseOfAsWritten(lines[0])
        case Failure(_) =>
        case Success(c) =>
          if c.Some? {
            assert AllWithoutBlankPrefs([c.value] + rest) == [WithoutBlankPrefs(c.value)] + AllWithoutBlankPrefs(rest);
          }
    }
  }

  /** `parse_input_file2` with the corrected preferences is the source's
      result with every blank preference left out. */
  lemma ParseInputFile2DropsBlanks(content: string)
    ensures ParseInputFile2(content) ==
      match ParseInputFile2AsWritten(content)
      case Failure(e) => Failure(e)
      case Success(cs) => Success(AllWithoutBlankPrefs(cs))
  {
    CoursesOfDropsBlanks(Split(Strip(content), '\n')[1..]);
  }

  /** No preference the source reads is blank. */
  predicate NoBlankPrefs(courses: seq<Course>) {
    forall k, j | 0 <= k < |courses| && 0 <= j < |courses[k].preferences| :: courses[k].preferences[j] != []
  }

  /** Where the source reads no blank preference the two readings agree. */
  lemma ParseInputFile2WithoutBlanks(content: string)
    requires ParseInputFile2AsWritten(content).Success?
    requires NoBlankPrefs(ParseInputFile2AsWritten(content).value)
    ensures ParseInputFile2(content) == ParseInputFile2AsWritten(content)
  {
    var cs := ParseInputFile2AsWritten(content).value;
    ParseInputFile2DropsBlanks(content);
    CoursesOfAsWrittenClean(Split(Strip(content), '\n')[1..]);
    forall k | 0 <= k < |cs| ensures WithoutBlankPrefs(cs[k]) == cs[k] {
      var prefs := cs[k].preferences;
      forall j | 0 <= j < |prefs| ensures Strip(prefs[j]) != [] {
        StripTrimmed(prefs[j]);
      }
      NonBlankAll(prefs);
    }
    assert AllWithoutBlankPrefs(cs) == cs;
  }

  lemma JoinTrailingEmpty(prefs: seq<string>)
    requires prefs != []
    ensures Join(prefs + [""], ",") == Join(prefs, ",") + ","
  {
    JoinAppend(prefs, [""], ",");
    assert Join([""], ",") == "";
    EmptySuffix(Join(prefs, ",") + ",");
  }

  lemma CommaFreeAppend(prefs: seq<string>)
    requires forall k | 0 <= k < |prefs| :: ',' !in prefs[k]
    ensures forall k | 0 <= k < |prefs + [""]| :: ',' !in (prefs + [""])[k]
  {
    forall k | 0 <= k < |prefs + [""]| ensures ',' !in (prefs + [""])[k] {
      if k < |prefs| {
        assert (prefs + [""])[k] == prefs[k];
      }
    }
  }

  lemma TrailingCommaSplit(prefs: seq<string>)
    requires prefs != []
    requires forall k | 0 <= k < |prefs| :: ',' !in prefs[k]
    ensures Split(Join([Join(prefs, ",") + ","], " "), ',') == prefs + [""]
  {
    var line := Join(prefs, ",") + ",";
    assert Join([line], " ") == line;
    JoinTrailingEmpty(prefs);
    CommaFreeAppend(prefs);
    SplitJoin(prefs + [""], ',');
  }

  lemma StripEmptyString()
    ensures Strip("") == ""
  {
  }

  lemma CleanTokensAndEmpty(prefs: seq<string>)
    requires forall k | 0 <= k < |prefs| :: IsToken(prefs[k]) && ',' !in prefs[k]
    ensures forall k | 0 <= k < |prefs + [""]| :: ',' !in (prefs + [""])[k]
    ensures CleanItems(prefs + [""]) == prefs + [""]
  {
    var parts := prefs + [""];
    CommaFreeAppend(prefs);
    var r := CleanItems(parts);
    forall k | 0 <= k < |parts| ensures r[k] == parts[k] {
      if k < |prefs| {
        assert parts[k] == prefs[k];
        TokenTrimmed(prefs[k]);
        StripTrimmed(prefs[k]);
      } else {
        StripEmptyString();
      }
    }
  }

  /** As written, a trailing comma adds an empty preference. */
  lemma TrailingCommaAsWritten(prefs: seq<string>)
    requires prefs != []
    requires forall k | 0 <= k < |prefs| :: IsToken(prefs[k]) && ',' !in prefs[k]
    ensures PrefItemsAsWritten([Join(prefs, ",") + ","]) == prefs + [""]
  {
    TrailingCommaSplit(prefs);
    CleanTokensAndEmpty(prefs);
  }

  lemma NonBlankTokensAndEmpty(prefs: seq<string>)
    requires forall k | 0 <= k < |prefs| :: IsToken(prefs[k]) && ',' !in prefs[k]
    ensures NonBlank(prefs + [""]) == prefs
  {
    forall k | 0 <= k < |prefs| ensures prefs[k] != [] && Trimmed(prefs[k]) && ',' !in prefs[k] {
      TokenTrimmed(prefs[k]);
    }
    NonBlankAppend(prefs, [""]);
    StripEmptyString();
    NonBlankSingle("");
    NonBlankKeepsAll(prefs);
    EmptySuffix(prefs);
  }

  /** With blank pieces dropped, a trailing comma changes nothing. */
  lemma TrailingCommaCorrected(prefs: seq<string>)
    requires prefs != []
    requires forall k | 0 <= k < |prefs| :: IsToken(prefs[k]) && ',' !in prefs[k]
    ensures PrefItems([Join(prefs, ",") + ","]) == prefs
  {
    TrailingCommaSplit(prefs);
    KeepTokensAndEmpty(prefs);
  }

  lemma KeepTokensAndEmpty(prefs: seq<string>)
    requires forall k | 0 <= k < |prefs| :: IsToken(prefs[k]) && ',' !in prefs[k]
    ensures forall k | 0 <= k < |prefs + [""]| :: ',' !in (prefs + [""])[k]
    ensures KeepItems(prefs + [""]) == prefs
  {
    CommaFreeAppend(prefs);
    NonBlankTokensAndEmpty(prefs);
    NonBlankTokens(prefs);
    forall k | 0 <= k < |prefs| ensures prefs[k] != [] && Trimmed(prefs[k]) && ',' !in prefs[k] {
      TokenTrimmed(prefs[k]);
    }
    KeepItemsPlain(prefs);
  }

  lemma NonBlankTokens(prefs: seq<string>)
    requires forall k | 0 <= k < |prefs| :: IsToken(prefs[k]) && ',' !in prefs[k]
    ensures NonBlank(prefs) == prefs
  {
    forall k | 0 <= k < |prefs| ensures prefs[k] != [] && Trimmed(prefs[k]) && ',' !in prefs[k] {
      TokenTrimmed(prefs[k]);
    }
    NonBlankKeepsAll(prefs);
  }

  lemma TrailingCommaTokens(number: string, e: int, t: string)
    requires IsToken(number) && IsToken(t)
    ensures SplitWs(Join([number, IntToString(e), t + ","], " ")) == [number, IntToString(e), t + ","]
  {
    var tokens := [number, IntToString(e), t + ","];
    IntToStringPlain(e);
    assert IsToken(t + ",") by {
      assert forall k | 0 <= k < |t| :: (t + ",")[k] == t[k];
    }
    SplitWsJoin(tokens);
  }

  lemma TrailingCommaPrefs(t: string)
    requires IsToken(t) && ',' !in t
    ensures PrefItemsAsWritten([t + ","]) == [t, ""]
    ensures PrefItems([t + ","]) == [t]
  {
    assert Join([t], ",") == t;
    TrailingCommaAsWritten([t]);
    TrailingCommaCorrected([t]);
  }

  /** A course line whose single preference carries a trailing comma, such
      as `cs101 50 MWF9,`: as written the course gets an extra empty
      preference; corrected it gets only the one it names. */
  lemma TrailingCommaLine(number: string, e: int, t: string)
    requires IsToken(number) && IsToken(t) && ',' !in t
    ensures CourseOfAsWritten(Join([number, IntToString(e), t + ","], " ")) == Success(Some(Course(number, e, [t, ""])))
    ensures CourseOf(Join([number, IntToString(e), t + ","], " ")) == Success(Some(Course(number, e, [t])))
  {
    TrailingCommaTokens(number, e, t);
    ParseIntToString(e);
    TrailingCommaPrefs(t);
    ConsTail(IntToString(e), [t + ","]);
    ConsTail(number, [IntToString(e), t + ","]);
  }
}
