/**
 * The week heatmap shared by both `ContributionGraphView`s: seven day columns from the week
 * start, three time-of-day rows, each cell counting the sessions (and adding up their
 * durations) that completed in it. The grids are specified here as functions of the session
 * list; the views compute them with a loop (modules `FlowGraph` and `TomatoGraph`).
 */
module Aggregation {
  import opened Sessions
  import opened Calendar
  import opened Format

  const Columns: int := 7
  const Rows: int := 3

  /** `TimeOfDay`, the row of a cell. */
  datatype TimeOfDay = Morning | Afternoon | Evening
  {
    /** `rawValue`: the row index, morning on top. */
    function RawValue(): (row: int)
      ensures 0 <= row < Rows
    {
      match this
      case Morning => 0
      case Afternoon => 1
      case Evening => 2
    }
  }

  /** `TimeOfDay(rawValue: row) ?? .morning`. */
  function FromRaw(row: int): (t: TimeOfDay)
    ensures 0 <= row < Rows ==> t.RawValue() == row
    ensures !(0 <= row < Rows) ==> t == Morning
  {
    if row == 1 then Afternoon else if row == 2 then Evening else Morning
  }

  /** Every row index names a time of day and every time of day has its own index. */
  lemma RawValueRoundTrip(t: TimeOfDay, row: int)
    ensures FromRaw(t.RawValue()) == t
    ensures 0 <= row < Rows ==> FromRaw(row).RawValue() == row
  {
  }

  /** `TimeOfDay.from(date:)`: hours 5 to 11 are morning, 12 to 17 afternoon, the rest evening. */
  function TimeOfDayFrom(date: int): (t: TimeOfDay)
    ensures t == Morning <==> 5 <= HourOf(date) < 12
    ensures t == Afternoon <==> 12 <= HourOf(date) < 18
    ensures t == Evening <==> HourOf(date) < 5 || 18 <= HourOf(date)
  {
    var hour := HourOf(date);
    if 5 <= hour < 12 then Morning
    else if 12 <= hour < 18 then Afternoon
    else Evening
  }

  /** The time of day does not depend on the day: the same clock time on another day falls in the same row. */
  lemma TimeOfDayIsDaily(date: int, days: int)
    ensures TimeOfDayFrom(AddDays(date, days)) == TimeOfDayFrom(date)
  {
    AddDaysShiftsDay(date, days);
  }

  /** `$0.date >= start && $0.date < end` with `end` seven days after `start`. */
  predicate InWindow(start: int, date: int)
  {
    start <= date < AddDays(start, Columns)
  }

  function InWindowOf(start: int): FocusSession -> bool
  {
    (s: FocusSession) => InWindow(start, s.date)
  }

  /** `relevantSessions`: the sessions of the displayed week, in history order. */
  function WindowSessions(sessions: seq<FocusSession>, start: int): (r: seq<FocusSession>)
    ensures forall s :: s in r <==> s in sessions && InWindow(start, s.date)
  {
    FilterMembers(sessions, InWindowOf(start));
    Filter(sessions, InWindowOf(start))
  }

  /** A session in the window lies `DaysBetween(start, date)` days after the start, a column index. */
  lemma WindowColumn(start: int, date: int)
    requires InWindow(start, date)
    ensures 0 <= DaysBetween(start, date) < Columns
  {
  }

  /** The session `s` is counted in the cell of column `col` and row `row`. */
  predicate Lands(s: FocusSession, start: int, col: int, row: int)
  {
    && InWindow(start, s.date)
    && DaysBetween(start, s.date) == col
    && TimeOfDayFrom(s.date).RawValue() == row
  }

  function LandsIn(start: int, col: int, row: int): FocusSession -> bool
  {
    (s: FocusSession) => Lands(s, start, col, row)
  }

  /** The sessions of one cell. */
  function CellSessions(sessions: seq<FocusSession>, start: int, col: int, row: int): seq<FocusSession>
  {
    Filter(sessions, LandsIn(start, col, row))
  }

  /** The 7 x 3 counts `calculateGridData(start:)` computes. */
  function CountGrid(sessions: seq<FocusSession>, start: int): (g: seq<seq<int>>)
    ensures IsGrid(g)
  {
    seq(Columns, col => seq(Rows, row => |CellSessions(sessions, start, col, row)|))
  }

  /** The 7 x 3 duration totals `calculateGridData(start:)` computes. */
  function DurationGrid(sessions: seq<FocusSession>, start: int): (g: seq<seq<int>>)
    ensures IsGrid(g)
  {
    seq(Columns, col => seq(Rows, row => TotalDuration(CellSessions(sessions, start, col, row))))
  }

  /** Seven columns of three cells. */
  predicate IsGrid(g: seq<seq<int>>)
  {
    |g| == Columns && forall col :: 0 <= col < Columns ==> |g[col]| == Rows
  }

  /** `Array(repeating: Array(repeating: 0, count: 3), count: 7)`. */
  function EmptyGrid(): (g: seq<seq<int>>)
    ensures IsGrid(g)
  {
    seq(Columns, col => seq(Rows, row => 0))
  }

  /** `grid[col][row] += amount`. */
  function Bump(g: seq<seq<int>>, col: int, row: int, amount: int): (r: seq<seq<int>>)
    requires IsGrid(g) && 0 <= col < Columns && 0 <= row < Rows
    ensures IsGrid(r)
    ensures r[col][row] == g[col][row] + amount
    ensures forall c, w :: 0 <= c < Columns && 0 <= w < Rows && (c != col || w != row) ==> r[c][w] == g[c][w]
  {
    g[col := g[col][row := g[col][row] + amount]]
  }

  /** Two grids with the same cells are the same grid. */
  lemma GridExt(a: seq<seq<int>>, b: seq<seq<int>>)
    requires IsGrid(a) && IsGrid(b)
    requires forall c, w :: 0 <= c < Columns && 0 <= w < Rows ==> a[c][w] == b[c][w]
    ensures a == b
  {
    forall c | 0 <= c < Columns
      ensures a[c] == b[c]
    {
      assert forall w :: 0 <= w < Rows ==> a[c][w] == b[c][w];
    }
  }

  /** With no sessions, every cell of both grids is zero. */
  lemma EmptyHistoryGrid(start: int)
    ensures CountGrid([], start) == EmptyGrid()
    ensures DurationGrid([], start) == EmptyGrid()
  {
    forall col, row | 0 <= col < Columns && 0 <= row < Rows
      ensures CellSessions([], start, col, row) == []
    {
    }
    GridExt(CountGrid([], start), EmptyGrid());
    GridExt(DurationGrid([], start), EmptyGrid());
  }

  /** One more session joins the sessions of a cell exactly when it lands in that cell. */
  lemma CellStep(sessions: seq<FocusSession>, s: FocusSession, start: int, col: int, row: int)
    ensures |CellSessions(sessions + [s], start, col, row)|
            == |CellSessions(sessions, start, col, row)| + (if Lands(s, start, col, row) then 1 else 0)
    ensures TotalDuration(CellSessions(sessions + [s], start, col, row))
            == TotalDuration(CellSessions(sessions, start, col, row)) + (if Lands(s, start, col, row) then s.duration else 0)
  {
    FilterSnoc(sessions, s, LandsIn(start, col, row));
    var cell := CellSessions(sessions, start, col, row);
    if Lands(s, start, col, row) {
      TotalDurationSnoc(cell, s);
    } else {
      assert cell + [] == cell;
    }
  }

  /** One more session in the window adds 1 to the count of its cell and to no other. */
  lemma CountGridStep(sessions: seq<FocusSession>, s: FocusSession, start: int)
    ensures InWindow(start, s.date) ==>
      var col, row := DaysBetween(start, s.date), TimeOfDayFrom(s.date).RawValue();
      && 0 <= col < Columns
      && CountGrid(sessions + [s], start) == Bump(CountGrid(sessions, start), col, row, 1)
    ensures !InWindow(start, s.date) ==> CountGrid(sessions + [s], start) == CountGrid(sessions, start)
  {
    var counts, counts' := CountGrid(sessions, start), CountGrid(sessions + [s], start);
    forall c, w | 0 <= c < Columns && 0 <= w < Rows
      ensures counts'[c][w] == counts[c][w] + (if Lands(s, start, c, w) then 1 else 0)
    {
      CellStep(sessions, s, start, c, w);
    }
    if InWindow(start, s.date) {
      var col, row := DaysBetween(start, s.date), TimeOfDayFrom(s.date).RawValue();
      GridExt(counts', Bump(counts, col, row, 1));
    } else {
      GridExt(counts', counts);
    }
  }

  /** One more session in the window adds its duration to the total of its cell and to no other. */
  lemma DurationGridStep(sessions: seq<FocusSession>, s: FocusSession, start: int)
    ensures InWindow(start, s.date) ==>
      var col, row := DaysBetween(start, s.date), TimeOfDayFrom(s.date).RawValue();
      && 0 <= col < Columns
      && DurationGrid(sessions + [s], start) == Bump(DurationGrid(sessions, start), col, row, s.duration)
    ensures !InWindow(start, s.date) ==> DurationGrid(sessions + [s], start) == DurationGrid(sessions, start)
  {
    var durations, durations' := DurationGrid(sessions, start), DurationGrid(sessions + [s], start);
    forall c, w | 0 <= c < Columns && 0 <= w < Rows
      ensures durations'[c][w] == durations[c][w] + (if Lands(s, start, c, w) then s.duration else 0)
    {
      CellStep(sessions, s, start, c, w);
    }
    if InWindow(start, s.date) {
      var col, row := DaysBetween(start, s.date), TimeOfDayFrom(s.date).RawValue();
      GridExt(durations', Bump(durations, col, row, s.duration));
    } else {
      GridExt(durations', durations);
    }
  }

  /**
   * One more session changes exactly one cell when it falls in the window, adding 1 to its
   * count and its duration to the cell's total, and no cell otherwise.
   */
  lemma GridStep(sessions: seq<FocusSession>, s: FocusSession, start: int)
    ensures InWindow(start, s.date) ==>
      var col, row := DaysBetween(start, s.date), TimeOfDayFrom(s.date).RawValue();
      && 0 <= col < Columns
      && CountGrid(sessions + [s], start) == Bump(CountGrid(sessions, start), col, row, 1)
      && DurationGrid(sessions + [s], start) == Bump(DurationGrid(sessions, start), col, row, s.duration)
    ensures !InWindow(start, s.date) ==>
      && CountGrid(sessions + [s], start) == CountGrid(sessions, start)
      && DurationGrid(sessions + [s], start) == DurationGrid(sessions, start)
  {
    CountGridStep(sessions, s, start);
    DurationGridStep(sessions, s, start);
  }

  /** The sum of a row of cells. */
  function Sum(xs: seq<int>): int
    decreases |xs|
  {
    if xs == [] then 0 else Sum(xs[..|xs| - 1]) + xs[|xs| - 1]
  }

  /** The sum of every cell of a grid. */
  function GridSum(g: seq<seq<int>>): int
    decreases |g|
  {
    if g == [] then 0 else GridSum(g[..|g| - 1]) + Sum(g[|g| - 1])
  }

  lemma {:induction false} SumUpdate(xs: seq<int>, i: int, v: int)
    requires 0 <= i < |xs|
    ensures Sum(xs[i := v]) == Sum(xs) - xs[i] + v
    decreases |xs|
  {
    var n := |xs| - 1;
    if i < n {
      assert xs[i := v][..n] == xs[..n][i := v];
      SumUpdate(xs[..n], i, v);
    } else {
      assert xs[i := v][..n] == xs[..n];
    }
  }

  lemma {:induction false} GridSumUpdate(g: seq<seq<int>>, i: int, row: seq<int>)
    requires 0 <= i < |g|
    ensures GridSum(g[i := row]) == GridSum(g) - Sum(g[i]) + Sum(row)
    decreases |g|
  {
    var n := |g| - 1;
    if i < n {
      assert g[i := row][..n] == g[..n][i := row];
      GridSumUpdate(g[..n], i, row);
    } else {
      assert g[i := row][..n] == g[..n];
    }
  }

  /** Bumping one cell by `amount` adds `amount` to the grid's total. */
  lemma BumpSum(g: seq<seq<int>>, col: int, row: int, amount: int)
    requires IsGrid(g) && 0 <= col < Columns && 0 <= row < Rows
    ensures GridSum(Bump(g, col, row, amount)) == GridSum(g) + amount
  {
    SumUpdate(g[col], row, g[col][row] + amount);
    GridSumUpdate(g, col, g[col][row := g[col][row] + amount]);
  }

  lemma {:induction false} ZeroSum(xs: seq<int>)
    requires forall i :: 0 <= i < |xs| ==> xs[i] == 0
    ensures Sum(xs) == 0
    decreases |xs|
  {
    if xs != [] {
      ZeroSum(xs[..|xs| - 1]);
    }
  }

  lemma {:induction false} ZeroGridSum(g: seq<seq<int>>)
    requires forall c, w :: 0 <= c < |g| && 0 <= w < |g[c]| ==> g[c][w] == 0
    ensures GridSum(g) == 0
    decreases |g|
  {
    if g != [] {
      ZeroSum(g[|g| - 1]);
      ZeroGridSum(g[..|g| - 1]);
    }
  }

  /** The counts add up to the number of sessions in the window: each is counted once, and no other session is. */
  lemma {:induction false} CountTotal(sessions: seq<FocusSession>, start: int)
    ensures GridSum(CountGrid(sessions, start)) == |WindowSessions(sessions, start)|
    decreases |sessions|
  {
    if sessions == [] {
      EmptyHistoryGrid(start);
      ZeroGridSum(EmptyGrid());
    } else {
      var rest := sessions[..|sessions| - 1];
      var s := sessions[|sessions| - 1];
      assert sessions == rest + [s];
      CountTotal(rest, start);
      GridStep(rest, s, start);
      WindowSnoc(rest, s, start);
      if InWindow(start, s.date) {
        BumpSum(CountGrid(rest, start), DaysBetween(start, s.date), TimeOfDayFrom(s.date).RawValue(), 1);
      }
    }
  }

  /** The window of a list extended by one session gains that session exactly when it is in the window. */
  lemma WindowSnoc(sessions: seq<FocusSession>, s: FocusSession, start: int)
    ensures InWindow(start, s.date) ==> WindowSessions(sessions + [s], start) == WindowSessions(sessions, start) + [s]
    ensures !InWindow(start, s.date) ==> WindowSessions(sessions + [s], start) == WindowSessions(sessions, start)
  {
    FilterSnoc(sessions, s, InWindowOf(start));
    assert InWindowOf(start)(s) == InWindow(start, s.date);
    var window := WindowSessions(sessions, start);
    assert window + [] == window;
  }

  lemma DurationTotalStep(sessions: seq<FocusSession>, s: FocusSession, start: int)
    requires GridSum(DurationGrid(sessions, start)) == TotalDuration(WindowSessions(sessions, start))
    ensures GridSum(DurationGrid(sessions + [s], start)) == TotalDuration(WindowSessions(sessions + [s], start))
  {
    GridStep(sessions, s, start);
    WindowSnoc(sessions, s, start);
    if InWindow(start, s.date) {
      BumpSum(DurationGrid(sessions, start), DaysBetween(start, s.date), TimeOfDayFrom(s.date).RawValue(), s.duration);
      TotalDurationSnoc(WindowSessions(sessions, start), s);
    }
  }

  /** The durations add up to the total duration of the sessions in the window. */
  lemma {:induction false} DurationTotal(sessions: seq<FocusSession>, start: int)
    ensures GridSum(DurationGrid(sessions, start)) == TotalDuration(WindowSessions(sessions, start))
    decreases |sessions|
  {
    if sessions == [] {
      EmptyHistoryGrid(start);
      ZeroGridSum(EmptyGrid());
    } else {
      var rest := sessions[..|sessions| - 1];
      assert sessions == rest + [sessions[|sessions| - 1]];
      DurationTotal(rest, start);
      DurationTotalStep(rest, sessions[|sessions| - 1], start);
    }
  }

  /** Only the sessions of the window matter: the grids of the filtered list are the grids of the whole history. */
  lemma WindowGrid(sessions: seq<FocusSession>, start: int)
    ensures CountGrid(WindowSessions(sessions, start), start) == CountGrid(sessions, start)
    ensures DurationGrid(WindowSessions(sessions, start), start) == DurationGrid(sessions, start)
  {
    forall col, row | 0 <= col < Columns && 0 <= row < Rows
      ensures CellSessions(WindowSessions(sessions, start), start, col, row) == CellSessions(sessions, start, col, row)
    {
      FilterFilter(sessions, InWindowOf(start), LandsIn(start, col, row));
    }
    var window := WindowSessions(sessions, start);
    GridExt(CountGrid(window, start), CountGrid(sessions, start));
    GridExt(DurationGrid(window, start), DurationGrid(sessions, start));
  }

  /** `dateFor(col:)`: the day `col` of the week. */
  function DateFor(weekStart: int, col: int): (d: int)
    ensures DaysBetween(weekStart, d) == col
    ensures IsMidnight(weekStart) ==> IsMidnight(d)
  {
    AddDays(weekStart, col)
  }

  function SameDayAt(date: int, t: TimeOfDay): FocusSession -> bool
  {
    (s: FocusSession) => SameDay(s.date, date) && TimeOfDayFrom(s.date) == t
  }

  /** `countFor(date:timeOfDay:)`: the sessions of that day whose time of day is `t`. */
  function CountFor(sessions: seq<FocusSession>, date: int, t: TimeOfDay): (n: nat)
    ensures n <= |sessions|
  {
    |Filter(sessions, SameDayAt(date, t))|
  }

  /** A day number determines the day: an instant within it has that day index. */
  lemma DayIndexOf(t: int, day: int)
    requires day * SecondsPerDay <= t < (day + 1) * SecondsPerDay
    ensures DayIndex(t) == day
  {
  }

  /** From a midnight week start, "column `col` of the window" and "the day of `dateFor(col)`" are the same days. */
  lemma ColumnIsDay(start: int, col: int, date: int)
    requires IsMidnight(start) && 0 <= col < Columns
    ensures (InWindow(start, date) && DaysBetween(start, date) == col) <==> SameDay(date, DateFor(start, col))
  {
    var k := DayIndex(start);
    assert start == k * SecondsPerDay;
    AddDaysShiftsDay(start, col);
    var q := DayIndex(date);
    DayIndexOf(date, q);
    if InWindow(start, date) && DaysBetween(start, date) == col {
      DayIndexOf(date, k + col);
    }
    if q == k + col {
      assert start + col * SecondsPerDay <= date < start + (col + 1) * SecondsPerDay;
      assert InWindow(start, date);
      var d := DaysBetween(start, date);
      assert start + d * SecondsPerDay <= date < start + (d + 1) * SecondsPerDay;
    }
  }

  /**
   * For a midnight week start, `countFor(dateFor(col), TimeOfDay(rawValue: row))` recounts
   * over the whole history exactly the cell `gridCounts[col][row]`.
   */
  lemma CountForMatchesGrid(sessions: seq<FocusSession>, start: int, col: int, row: int)
    requires IsMidnight(start) && 0 <= col < Columns && 0 <= row < Rows
    ensures CountFor(sessions, DateFor(start, col), FromRaw(row)) == CountGrid(sessions, start)[col][row]
  {
    forall s | s in sessions
      ensures LandsIn(start, col, row)(s) == SameDayAt(DateFor(start, col), FromRaw(row))(s)
    {
      ColumnIsDay(start, col, s.date);
      RawValueRoundTrip(TimeOfDayFrom(s.date), row);
    }
    FilterAgree(sessions, LandsIn(start, col, row), SameDayAt(DateFor(start, col), FromRaw(row)));
  }

  /** `colorFor(count:)` as a shade index: 0 for none, 1 for one, 2 for two or three, 3 for more. */
  function Level(count: int): (level: int)
    ensures 0 <= level <= 3
    ensures level == 0 <==> count == 0
    ensures count >= 0 ==> (level == 1 <==> count == 1)
    ensures level == 2 <==> 2 <= count <= 3
    ensures level == 3 <==> count >= 4
  {
    if count == 0 then 0
    else if count <= 1 then 1
    else if count <= 3 then 2
    else 3
  }

  /** More sessions never give a lighter shade. */
  lemma LevelMonotone(a: int, b: int)
    requires 0 <= a <= b
    ensures Level(a) <= Level(b)
  {
  }

  /** `date(bySettingHour: 23, minute: 59, second: 59, of: weekStart + 6 days)`. */
  function EndOfWeek(weekStart: int): int
  {
    EndOfDay(AddDays(weekStart, Columns - 1))
  }

  /** `session.date >= currentWeekStart && session.date <= endOfDay`. */
  predicate InWeek(weekStart: int, date: int)
  {
    weekStart <= date <= EndOfWeek(weekStart)
  }

  function InWeekOf(weekStart: int): FocusSession -> bool
  {
    (s: FocusSession) => InWeek(weekStart, s.date)
  }

  /**
   * `totalDuration` (and the total behind `totalFocusTime`): the durations of the week's
   * sessions added up. A week without sessions totals 0; when no session of the week has a
   * negative duration the total is not negative and is at least each of their durations.
   */
  function WeekTotal(sessions: seq<FocusSession>, weekStart: int): (total: int)
    ensures (forall s | s in sessions :: !InWeek(weekStart, s.date)) ==> total == 0
    ensures (forall s | s in sessions && InWeek(weekStart, s.date) :: s.duration >= 0) ==>
      total >= 0 && forall s | s in sessions && InWeek(weekStart, s.date) :: s.duration <= total
  {
    FilterMembers(sessions, InWeekOf(weekStart));
    var week := Filter(sessions, InWeekOf(weekStart));
    assert week != [] ==> week[0] in week;
    TotalDuration(week)
  }

  /**
   * From a midnight week start the inclusive bound is the last second of the seventh day: a
   * session then counts, one at the next midnight does not.
   */
  lemma WeekBoundary(weekStart: int)
    requires IsMidnight(weekStart)
    ensures EndOfWeek(weekStart) == AddDays(weekStart, Columns) - 1
    ensures InWeek(weekStart, AddDays(weekStart, Columns) - 1)
    ensures !InWeek(weekStart, AddDays(weekStart, Columns))
    ensures forall date :: InWeek(weekStart, date) <==> InWindow(weekStart, date)
  {
    var last := AddDays(weekStart, Columns - 1);
    assert IsMidnight(last);
    assert StartOfDay(last) == last by {
      DayIndexOf(last, DayIndex(weekStart) + Columns - 1);
    }
  }

  /** With whole-second dates, the week total is the sum of the grid's durations for the same week. */
  lemma WeekTotalMatchesGrid(sessions: seq<FocusSession>, weekStart: int)
    requires IsMidnight(weekStart)
    ensures WeekTotal(sessions, weekStart) == GridSum(DurationGrid(sessions, weekStart))
  {
    WeekBoundary(weekStart);
    FilterAgree(sessions, InWeekOf(weekStart), InWindowOf(weekStart));
    DurationTotal(sessions, weekStart);
  }
}
