/** `formatScheduleGrid` of `frontend/src/app/schedula/page.jsx`: turns the
    flat list of `{room, time, course}` items the server returns into a
    table with one row per room and one column per time.  The row object is
    a map from column name to text; its `room` key holds the room, and a
    time labelled `room` would overwrite it, as in the source. */
module ScheduleGrid {
  import opened Wrappers
  import opened LexOrder

  /** One item of the schedule. */
  datatype Item = Item(room: string, time: string, course: string)

  /** `{ grid, rooms, times }`. */
  datatype Grid = Grid(grid: seq<map<string, string>>, rooms: seq<string>, times: seq<string>)

  const RoomKey := "room"

  /** `schedule.map((item) => item.room)`. */
  function RoomColumn(s: seq<Item>): (r: seq<string>)
    ensures |r| == |s|
    ensures forall k | 0 <= k < |s| :: r[k] == s[k].room
  {
    if s == [] then [] else [s[0].room] + RoomColumn(s[1..])
  }

  /** `schedule.map((item) => item.time)`. */
  function TimeColumn(s: seq<Item>): (r: seq<string>)
    ensures |r| == |s|
    ensures forall k | 0 <= k < |s| :: r[k] == s[k].time
  {
    if s == [] then [] else [s[0].time] + TimeColumn(s[1..])
  }

  /** `Array.from(new Set(xs)).sort()`: every value once, in increasing order. */
  function Axis(xs: seq<string>): (r: seq<string>)
    ensures StrictlySorted(r)
    ensures forall x :: x in r <==> x in xs
  {
    var d := Dedup(xs);
    var r := SortStrings(d);
    DistinctPermutation(d, r);
    SortedDistinctIsStrict(r);
    assert forall x :: x in r <==> x in multiset(d);
    r
  }

  predicate At(item: Item, room: string, time: string) {
    item.room == room && item.time == time
  }

  /** `schedule.find((item) => item.room === room && item.time === time)`. */
  function Find(s: seq<Item>, room: string, time: string): (r: Option<Item>)
    ensures r.Some? ==> r.value in s && At(r.value, room, time)
  {
    if s == [] then None
    else if At(s[0], room, time) then Some(s[0])
    else Find(s[1..], room, time)
  }

  /** `course ? course.course : ''`. */
  function Cell(s: seq<Item>, room: string, time: string): string {
    match Find(s, room, time)
    case Some(item) => item.course
    case None => ""
  }

  /** The `times.forEach` loop: sets one column per time, left to right. */
  function Fill(row: map<string, string>, s: seq<Item>, room: string, times: seq<string>): map<string, string>
    decreases |times|
  {
    if times == [] then row
    else Fill(row[times[0] := Cell(s, room, times[0])], s, room, times[1..])
  }

  /** The row of one room: `{ room }` and then every time column. */
  function Row(s: seq<Item>, room: string, times: seq<string>): map<string, string> {
    Fill(map[RoomKey := room], s, room, times)
  }

  /** `rooms.map(...)`. */
  function Rows(s: seq<Item>, rooms: seq<string>, times: seq<string>): (r: seq<map<string, string>>)
    ensures |r| == |rooms|
    ensures forall i | 0 <= i < |rooms| :: r[i] == Row(s, rooms[i], times)
  {
    if rooms == [] then [] else [Row(s, rooms[0], times)] + Rows(s, rooms[1..], times)
  }

  /** `formatScheduleGrid()`: nothing without a schedule. */
  function FormatScheduleGrid(schedule: Option<seq<Item>>): (r: Option<Grid>)
    ensures r.None? <==> schedule.None?
  {
    match schedule
    case None => None
    case Some(s) =>
      var rooms := Axis(RoomColumn(s));
      var times := Axis(TimeColumn(s));
      Some(Grid(Rows(s, rooms, times), rooms, times))
  }

  // ---------------------------------------------------------------------------
  // The first matching item decides the cell

  /** `find` returns the first item at the room and time, and nothing
      exactly when no item is there. */
  lemma {:induction false} FindFirst(s: seq<Item>, room: string, time: string, k: int)
    requires 0 <= k < |s| && At(s[k], room, time)
    requires forall j | 0 <= j < k :: !At(s[j], room, time)
    ensures Find(s, room, time) == Some(s[k])
  {
    if k > 0 {
      assert !At(s[0], room, time);
      assert forall j | 0 <= j < k - 1 :: s[1..][j] == s[j + 1];
      FindFirst(s[1..], room, time, k - 1);
    }
  }

  lemma {:induction false} FindNone(s: seq<Item>, room: string, time: string)
    ensures Find(s, room, time).None? <==> forall k | 0 <= k < |s| :: !At(s[k], room, time)
  {
    if s != [] {
      FindNone(s[1..], room, time);
      assert forall k | 1 <= k < |s| :: s[k] == s[1..][k - 1];
    }
  }

  /** The cell holds the course of the first item at its room and time. */
  lemma CellFirst(s: seq<Item>, room: string, time: string, k: int)
    requires 0 <= k < |s| && At(s[k], room, time)
    requires forall j | 0 <= j < k :: !At(s[j], room, time)
    ensures Cell(s, room, time) == s[k].course
  {
    FindFirst(s, room, time, k);
  }

  /** The cell is empty when no item is at its room and time. */
  lemma CellEmpty(s: seq<Item>, room: string, time: string)
    requires forall k | 0 <= k < |s| :: !At(s[k], room, time)
    ensures Cell(s, room, time) == ""
  {
    FindNone(s, room, time);
  }

  /** Items after a match never change the cell. */
  lemma {:induction false} LaterItemsIgnored(s: seq<Item>, later: seq<Item>, room: string, time: string)
    requires Find(s, room, time).Some?
    ensures Cell(s + later, room, time) == Cell(s, room, time)
  {
    assert s != [];
    assert (s + later)[0] == s[0];
    if !At(s[0], room, time) {
      assert (s + later)[1..] == s[1..] + later;
      LaterItemsIgnored(s[1..], later, room, time);
    }
  }

  // ---------------------------------------------------------------------------
  // Rows

  lemma {:induction false} FillContents(row: map<string, string>, s: seq<Item>, room: string, times: seq<string>)
    ensures Fill(row, s, room, times).Keys == row.Keys + set t | t in times
    ensures forall t | t in times :: Fill(row, s, room, times)[t] == Cell(s, room, t)
    ensures forall key | key in row && key !in times :: Fill(row, s, room, times)[key] == row[key]
    decreases |times|
  {
    if times != [] {
      var next := row[times[0] := Cell(s, room, times[0])];
      assert Fill(row, s, room, times) == Fill(next, s, room, times[1..]);
      FillContents(next, s, room, times[1..]);
      assert forall t | t in times :: t == times[0] || t in times[1..];
      assert (set t | t in times) == {times[0]} + set t | t in times[1..];
    }
  }

  /** A row has the `room` key and one key per time; each time key holds
      its cell, and the `room` key holds the room unless a time is called
      `room`. */
  lemma RowContents(s: seq<Item>, room: string, times: seq<string>)
    ensures Row(s, room, times).Keys == {RoomKey} + set t | t in times
    ensures forall t | t in times :: Row(s, room, times)[t] == Cell(s, room, t)
    ensures RoomKey !in times ==> Row(s, room, times)[RoomKey] == room
  {
    FillContents(map[RoomKey := room], s, room, times);
  }

  // ---------------------------------------------------------------------------
  // The whole grid

  /** Some item of the schedule is in room `x`. */
  predicate HasRoom(s: seq<Item>, x: string) {
    exists k | 0 <= k < |s| :: s[k].room == x
  }

  /** Some item of the schedule is at time `x`. */
  predicate HasTime(s: seq<Item>, x: string) {
    exists k | 0 <= k < |s| :: s[k].time == x
  }

  lemma RoomColumnValues(s: seq<Item>, x: string)
    ensures x in RoomColumn(s) <==> HasRoom(s, x)
  {
    if HasRoom(s, x) {
      var k :| 0 <= k < |s| && s[k].room == x;
      assert RoomColumn(s)[k] == x;
    }
  }

  lemma TimeColumnValues(s: seq<Item>, x: string)
    ensures x in TimeColumn(s) <==> HasTime(s, x)
  {
    if HasTime(s, x) {
      var k :| 0 <= k < |s| && s[k].time == x;
      assert TimeColumn(s)[k] == x;
    }
  }

  /** The axes are strictly increasing and list exactly the rooms and the
      times that occur in the schedule. */
  lemma GridAxes(s: seq<Item>)
    ensures var g := FormatScheduleGrid(Some(s)).value;
      && StrictlySorted(g.rooms) && StrictlySorted(g.times)
      && (forall x :: x in g.rooms <==> HasRoom(s, x))
      && (forall x :: x in g.times <==> HasTime(s, x))
  {
    forall x ensures x in RoomColumn(s) <==> HasRoom(s, x) {
      RoomColumnValues(s, x);
    }
    forall x ensures x in TimeColumn(s) <==> HasTime(s, x) {
      TimeColumnValues(s, x);
    }
  }

  lemma RowsCells(s: seq<Item>, rooms: seq<string>, times: seq<string>)
    ensures var rows := Rows(s, rooms, times);
      && (forall i, t | 0 <= i < |rooms| && t in times :: t in rows[i] && rows[i][t] == Cell(s, rooms[i], t))
      && (RoomKey !in times ==> forall i | 0 <= i < |rooms| :: RoomKey in rows[i] && rows[i][RoomKey] == rooms[i])
  {
    forall i | 0 <= i < |rooms|
      ensures forall t | t in times :: t in Row(s, rooms[i], times) && Row(s, rooms[i], times)[t] == Cell(s, rooms[i], t)
      ensures RoomKey !in times ==> RoomKey in Row(s, rooms[i], times) && Row(s, rooms[i], times)[RoomKey] == rooms[i]
    {
      RowContents(s, rooms[i], times);
    }
  }

  /** One row per room, in axis order; every time column of a row holds
      that room's cell. */
  lemma GridCells(s: seq<Item>)
    ensures var g := FormatScheduleGrid(Some(s)).value;
      && |g.grid| == |g.rooms|
      && (forall i, t | 0 <= i < |g.rooms| && t in g.times :: t in g.grid[i] && g.grid[i][t] == Cell(s, g.rooms[i], t))
      && (RoomKey !in g.times ==> forall i | 0 <= i < |g.rooms| :: RoomKey in g.grid[i] && g.grid[i][RoomKey] == g.rooms[i])
  {
    var g := FormatScheduleGrid(Some(s)).value;
    RowsCells(s, g.rooms, g.times);
  }

  /** An axis depends only on which values occur. */
  lemma AxisIgnoresOrder(xs: seq<string>, ys: seq<string>)
    requires forall x :: x in xs <==> x in ys
    ensures Axis(xs) == Axis(ys)
  {
    StrictlySortedUnique(Axis(xs), Axis(ys));
  }

  /** The axes depend only on which items there are, not on their order. */
  lemma AxesIgnoreOrder(s: seq<Item>, u: seq<Item>)
    requires multiset(s) == multiset(u)
    ensures FormatScheduleGrid(Some(s)).value.rooms == FormatScheduleGrid(Some(u)).value.rooms
    ensures FormatScheduleGrid(Some(s)).value.times == FormatScheduleGrid(Some(u)).value.times
  {
    forall x ensures (x in RoomColumn(s) <==> x in RoomColumn(u)) && (x in TimeColumn(s) <==> x in TimeColumn(u)) {
      SameItems(s, u, x);
      RoomColumnValues(s, x);
      RoomColumnValues(u, x);
      TimeColumnValues(s, x);
      TimeColumnValues(u, x);
    }
    AxisIgnoresOrder(RoomColumn(s), RoomColumn(u));
    AxisIgnoresOrder(TimeColumn(s), TimeColumn(u));
  }

  lemma SameItems(s: seq<Item>, u: seq<Item>, x: string)
    requires multiset(s) == multiset(u)
    ensures HasRoom(s, x) <==> HasRoom(u, x)
    ensures HasTime(s, x) <==> HasTime(u, x)
  {
    forall k | 0 <= k < |s| ensures s[k] in u {
      assert s[k] in multiset(s);
    }
    forall k | 0 <= k < |u| ensures u[k] in s {
      assert u[k] in multiset(u);
    }
  }

  /** An empty schedule gives an empty grid. */
  lemma EmptyScheduleGrid()
    ensures FormatScheduleGrid(Some([])) == Some(Grid([], [], []))
  {
    assert Axis([]) == [];
  }
}
