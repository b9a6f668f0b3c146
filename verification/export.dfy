/** `exportSchedule` of `frontend/src/app/schedula/page.jsx`: the CSV text
    offered for download, and the two input-file templates the page offers.
    The fields are written as they are, with no quoting. */
module Export {
  import opened Wrappers
  import opened Text
  import opened Seqs
  import opened ScheduleGrid

  const HeaderRow := "Room,Time,Course"
  const CsvHeader := HeaderRow + "\n"

  /** `${item.room},${item.time},${item.course}` without its line break. */
  function RowText(item: Item): string {
    item.room + "," + item.time + "," + item.course
  }

  function CsvLine(item: Item): string {
    RowText(item) + "\n"
  }

  /** The `forEach` loop: `csv += line` for every item, in order. */
  function AppendLines(csv: string, s: seq<Item>): string
    decreases |s|
  {
    if s == [] then csv else AppendLines(csv + CsvLine(s[0]), s[1..])
  }

  /** The lines of the items, one after the other. */
  function CsvLines(s: seq<Item>): string {
    if s == [] then "" else CsvLine(s[0]) + CsvLines(s[1..])
  }

  function CsvText(s: seq<Item>): string {
    AppendLines(CsvHeader, s)
  }

  /** `exportSchedule()` up to the download: nothing without a schedule. */
  method ExportSchedule(schedule: Option<seq<Item>>) returns (csv: Option<string>)
    ensures csv.None? <==> schedule.None?
    ensures csv.Some? ==> csv.value == CsvHeader + CsvLines(schedule.value)
    ensures csv.Some? ==> StartsWith(csv.value, CsvHeader)
    ensures csv.Some? && (forall k | 0 <= k < |schedule.value| :: PlainItem(schedule.value[k])) ==>
      ReadCsv(csv.value) == schedule
  {
    if schedule.None? {
      return None;
    }
    var s := schedule.value;
    var text := CsvHeader;
    var i := 0;
    while i < |s|
      invariant 0 <= i <= |s|
      invariant text == CsvHeader + CsvLines(s[..i])
    {
      CsvLinesSnoc(s[..i], s[i]);
      assert s[..i + 1] == s[..i] + [s[i]];
      text := text + CsvLine(s[i]);
      i := i + 1;
    }
    assert s[..i] == s;
    assert text[..|CsvHeader|] == CsvHeader;
    if forall k | 0 <= k < |s| :: PlainItem(s[k]) {
      AppendLinesConcat(CsvHeader, s);
      ExportRoundTrip(s);
    }
    return Some(text);
  }

  // ---------------------------------------------------------------------------
  // The accumulating loop and the concatenation agree

  lemma {:induction false} CsvLinesSnoc(s: seq<Item>, item: Item)
    ensures CsvLines(s + [item]) == CsvLines(s) + CsvLine(item)
  {
    if s == [] {
      assert s + [item] == [item];
      EmptySuffix(CsvLine(item));
    } else {
      assert (s + [item])[0] == s[0];
      assert (s + [item])[1..] == s[1..] + [item];
      CsvLinesSnoc(s[1..], item);
      SeqAssoc(CsvLine(s[0]), CsvLines(s[1..]), CsvLine(item));
    }
  }

  /** Appending line by line to a prefix is the prefix followed by all lines. */
  lemma {:induction false} AppendLinesConcat(csv: string, s: seq<Item>)
    ensures AppendLines(csv, s) == csv + CsvLines(s)
    decreases |s|
  {
    if s == [] {
      EmptySuffix(csv);
    } else {
      AppendLinesConcat(csv + CsvLine(s[0]), s[1..]);
      SeqAssoc(csv, CsvLine(s[0]), CsvLines(s[1..]));
    }
  }

  // ---------------------------------------------------------------------------
  // Reading the text back

  predicate PlainField(f: string) {
    ',' !in f && '\n' !in f
  }

  predicate PlainItem(item: Item) {
    PlainField(item.room) && PlainField(item.time) && PlainField(item.course)
  }

  function RowTexts(s: seq<Item>): (r: seq<string>)
    ensures |r| == |s|
  {
    if s == [] then [] else [RowText(s[0])] + RowTexts(s[1..])
  }

  /** A line read as three comma-separated fields. */
  function ReadRow(line: string): Option<Item> {
    var fields := Split(line, ',');
    if |fields| == 3 then Some(Item(fields[0], fields[1], fields[2])) else None
  }

  function ReadRows(lines: seq<string>): Option<seq<Item>> {
    if lines == [] then Some([])
    else
      match ReadRow(lines[0])
      case None => None
      case Some(item) =>
        match ReadRows(lines[1..])
        case None => None
        case Some(rest) => Some([item] + rest)
  }

  /** A CSV reader for the exported text: the header line, one line per
      item, and nothing after the last line break. */
  function ReadCsv(text: string): Option<seq<Item>> {
    var lines := Split(text, '\n');
    if |lines| < 2 || lines[0] != HeaderRow || lines[|lines| - 1] != "" then None
    else ReadRows(lines[1..|lines| - 1])
  }

  lemma RowTextNoBreak(item: Item)
    requires PlainItem(item)
    ensures '\n' !in RowText(item)
  {
  }

  /** A line with plain fields reads back as its item. */
  lemma ReadRowText(item: Item)
    requires PlainItem(item)
    ensures ReadRow(RowText(item)) == Some(item)
  {
    var tail := item.time + [','] + item.course;
    assert Split(tail, ',') == [item.time, item.course] by {
      SplitAtFirst(item.time, ',', item.course);
      assert Split(item.course, ',') == [item.course];
    }
    assert RowText(item) == item.room + [','] + tail;
    SplitAtFirst(item.room, ',', tail);
  }

  /** The lines of the items split at the line breaks, with the empty
      remainder after the last one. */
  lemma {:induction false} CsvLinesSplit(s: seq<Item>)
    requires forall k | 0 <= k < |s| :: PlainItem(s[k])
    ensures Split(CsvLines(s), '\n') == RowTexts(s) + [""]
  {
    if s == [] {
    } else {
      RowTextNoBreak(s[0]);
      CsvLinesSplit(s[1..]);
      SeqAssoc(RowText(s[0]), "\n", CsvLines(s[1..]));
      SplitAtFirst(RowText(s[0]), '\n', CsvLines(s[1..]));
      SeqAssoc([RowText(s[0])], RowTexts(s[1..]), [""]);
    }
  }

  lemma {:induction false} ReadRowsTexts(s: seq<Item>)
    requires forall k | 0 <= k < |s| :: PlainItem(s[k])
    ensures ReadRows(RowTexts(s)) == Some(s)
  {
    if s != [] {
      ReadRowText(s[0]);
      ConsTail(RowText(s[0]), RowTexts(s[1..]));
      ReadRowsTexts(s[1..]);
      HeadTail(s);
    }
  }

  /** The exported text is the header line and then one line per item, in
      order, each ended by a line break. */
  lemma CsvTextLines(s: seq<Item>)
    requires forall k | 0 <= k < |s| :: PlainItem(s[k])
    ensures Split(CsvText(s), '\n') == [HeaderRow] + RowTexts(s) + [""]
  {
    AppendLinesConcat(CsvHeader, s);
    HeaderLine(CsvLines(s));
    CsvLinesSplit(s);
    SeqAssoc([HeaderRow], RowTexts(s), [""]);
  }

  lemma HeaderLine(rest: string)
    ensures Split(CsvHeader + rest, '\n') == [HeaderRow] + Split(rest, '\n')
  {
    assert '\n' !in HeaderRow;
    SeqAssoc(HeaderRow, "\n", rest);
    SplitAtFirst(HeaderRow, '\n', rest);
  }

  /** Reading the exported text gives back the schedule when no field holds
      a comma or a line break. */
  lemma ExportRoundTrip(s: seq<Item>)
    requires forall k | 0 <= k < |s| :: PlainItem(s[k])
    ensures ReadCsv(CsvText(s)) == Some(s)
  {
    var lines := Split(CsvText(s), '\n');
    CsvTextLines(s);
    assert lines[1..|lines| - 1] == RowTexts(s);
    ReadRowsTexts(s);
  }

  /** Without quoting, a comma inside a course name makes its line read
      as four fields. */
  lemma CommaInCourseBreaksRow(room: string, time: string, a: string, b: string)
    requires PlainField(room) && PlainField(time) && PlainField(a) && PlainField(b)
    ensures ReadRow(RowText(Item(room, time, a + "," + b))) == None
    ensures |Split(RowText(Item(room, time, a + "," + b)), ',')| == 4
  {
    var line := RowText(Item(room, time, a + "," + b));
    assert line == room + [','] + (time + [','] + (a + [','] + b));
    SplitAtFirst(room, ',', time + [','] + (a + [','] + b));
    SplitAtFirst(time, ',', a + [','] + b);
    SplitAtFirst(a, ',', b);
    assert Split(b, ',') == [b];
  }

  // ---------------------------------------------------------------------------
  // The downloadable templates

  /** The template of the first input file. */
  const Format1Template :=
    "rooms\n101 : 25\n115 : 50\n200 : 250 ;\ncourses\ncs101, cs102, cs110, cs120, cs220, cs412, cs430, cs612, cs630 ;\ntimes\nMWF9, MWF10, MWF11, MWF2, TT9, TT10:30, TT2, TT3:30 ;"

  /** The template of the second input file. */
  const Format2Template :=
    "course   enrollment   preferences\ncs101    180          MWF9, MWF10, MWF11, TT9\ncs412    80           MWF9, TT9, TT10:30\ncs612    35\ncs630    40\n"

  /** The first template ends with the closing `;` of its last section,
      the second with a line break. */
  lemma TemplateEnds()
    ensures Format1Template[|Format1Template| - 1] == ';'
    ensures Format2Template[|Format2Template| - 1] == '\n'
  {
  }
}
