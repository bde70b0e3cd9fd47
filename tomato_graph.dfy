/** TomatoClock's `ContributionGraphView`: the same week grid, counts only. */
module TomatoGraph {
  import opened Sessions
  import opened Calendar
  import opened Aggregation

  /**
   * `calculateGridData(start:)`: the sessions of the week are visited in history order and
   * each adds 1 to the count of its day and time of day.
   */
  method CalculateGridData(sessions: seq<FocusSession>, start: int) returns (grid: seq<seq<int>>)
    ensures IsGrid(grid)
    ensures grid == CountGrid(sessions, start)
    ensures GridSum(grid) == |WindowSessions(sessions, start)|
  {
    grid := EmptyGrid();
    EmptyHistoryGrid(start);
    var relevant := WindowSessions(sessions, start);
    var i := 0;
    while i < |relevant|
      invariant 0 <= i <= |relevant|
      invariant grid == CountGrid(relevant[..i], start)
    {
      var session := relevant[i];
      ghost var done := relevant[..i];
      assert relevant[..i + 1] == done + [session];
      assert session in relevant;
      GridStep(done, session, start);
      var dayOffset := DaysBetween(start, session.date);
      if 0 <= dayOffset < Columns {
        var row := TimeOfDayFrom(session.date).RawValue();
        grid := grid[dayOffset := grid[dayOffset][row := grid[dayOffset][row] + 1]];
        assert grid == Bump(CountGrid(done, start), dayOffset, row, 1);
      }
      i := i + 1;
    }
    assert relevant[..i] == relevant;
    WindowGrid(sessions, start);
    CountTotal(sessions, start);
  }
}
