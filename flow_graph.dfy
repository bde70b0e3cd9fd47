/**
 * Flow's `ContributionGraphView`: the grid computation over the timer's history, the
 * summary of one cell and the tooltip's duration text.
 */
module FlowGraph {
  import opened Wrappers
  import opened Sessions
  import opened Calendar
  import opened Format
  import opened Aggregation

  /** `CellStat`: the day, row, count and total duration of one cell. */
  datatype CellStat = CellStat(date: int, timeOfDay: TimeOfDay, count: int, duration: int)

  /**
   * `calculateGridData(start:)`: the sessions of the week are visited in history order and
   * each adds 1 to the count, and its duration to the total, of its day and time of day.
   */
  method CalculateGridData(sessions: seq<FocusSession>, start: int) returns (counts: seq<seq<int>>, durations: seq<seq<int>>)
    ensures IsGrid(counts) && IsGrid(durations)
    ensures counts == CountGrid(sessions, start)
    ensures durations == DurationGrid(sessions, start)
  {
    counts := EmptyGrid();
    durations := EmptyGrid();
    EmptyHistoryGrid(start);
    var relevant := WindowSessions(sessions, start);
    var i := 0;
    while i < |relevant|
      invariant 0 <= i <= |relevant|
      invariant counts == CountGrid(relevant[..i], start)
      invariant durations == DurationGrid(relevant[..i], start)
    {
      var session := relevant[i];
      ghost var done := relevant[..i];
      assert relevant[..i + 1] == done + [session];
      assert session in relevant;
      GridStep(done, session, start);
      var dayOffset := DaysBetween(start, session.date);
      if 0 <= dayOffset < Columns {
        var row := TimeOfDayFrom(session.date).RawValue();
        counts := counts[dayOffset := counts[dayOffset][row := counts[dayOffset][row] + 1]];
        durations := durations[dayOffset := durations[dayOffset][row := durations[dayOffset][row] + session.duration]];
        assert counts == Bump(CountGrid(done, start), dayOffset, row, 1);
        assert durations == Bump(DurationGrid(done, start), dayOffset, row, session.duration);
      }
      i := i + 1;
    }
    assert relevant[..i] == relevant;
    WindowGrid(sessions, start);
  }

  /** `statFor(col:row:)`: the summary of a cell of the computed grids. */
  function StatFor(counts: seq<seq<int>>, durations: seq<seq<int>>, start: int, col: int, row: int): (stat: CellStat)
    requires IsGrid(counts) && IsGrid(durations) && 0 <= col < Columns && 0 <= row < Rows
    ensures DaysBetween(start, stat.date) == col && stat.timeOfDay.RawValue() == row
    ensures stat.count == counts[col][row] && stat.duration == durations[col][row]
  {
    CellStat(DateFor(start, col), FromRaw(row), counts[col][row], durations[col][row])
  }

  /**
   * The summary of a cell of the grids of `sessions` reports that cell's sessions: how many
   * they are and how long they lasted; from a midnight week start the count is also what
   * `countFor` finds for the cell's day and time of day.
   */
  lemma StatForCell(sessions: seq<FocusSession>, start: int, col: int, row: int)
    requires 0 <= col < Columns && 0 <= row < Rows
    ensures var stat := StatFor(CountGrid(sessions, start), DurationGrid(sessions, start), start, col, row);
      && stat.count == |CellSessions(sessions, start, col, row)|
      && stat.duration == TotalDuration(CellSessions(sessions, start, col, row))
      && (forall s | s in CellSessions(sessions, start, col, row) ::
            DaysBetween(start, s.date) == col && TimeOfDayFrom(s.date) == stat.timeOfDay)
      && (IsMidnight(start) ==> stat.count == CountFor(sessions, stat.date, stat.timeOfDay))
  {
    RawValueRoundTrip(FromRaw(row), row);
    FilterMembers(sessions, LandsIn(start, col, row));
    forall s | s in CellSessions(sessions, start, col, row)
      ensures TimeOfDayFrom(s.date) == FromRaw(row)
    {
      RawValueRoundTrip(TimeOfDayFrom(s.date), row);
    }
    if IsMidnight(start) {
      CountForMatchesGrid(sessions, start, col, row);
    }
  }

  /** The text `"\(hours)h \(minutes)m"`: for non-negative parts it reads back as them. */
  function HoursMinutesText(hours: int, minutes: int): (text: string)
    ensures hours >= 0 && minutes >= 0 ==> ParseHoursMinutes(text) == Some((hours, minutes))
  {
    var hs, ms := IntString(hours), IntString(minutes);
    var text := hs + "h " + ms + "m";
    if hours >= 0 && minutes >= 0 then
      DigitRunOf(hs, "h " + ms + "m");
      assert text == hs + ("h " + ms + "m");
      assert text[..|hs|] == hs;
      assert text[|hs|..] == "h " + ms + "m";
      assert ("h " + ms + "m")[2..|ms| + 2] == ms;
      text
    else
      text
  }

  /** The length of the run of digits that starts `s`. */
  function DigitRun(s: string): (n: nat)
    ensures n <= |s| && IsDigits(s[..n])
    decreases |s|
  {
    if s == [] || !IsDigit(s[0]) then 0
    else
      var n := 1 + DigitRun(s[1..]);
      assert s[..n] == [s[0]] + s[1..][..n - 1];
      n
  }

  /** A run of digits followed by anything else is read as exactly that run. */
  lemma {:induction false} DigitRunOf(a: string, rest: string)
    requires IsDigits(a) && (rest == [] || !IsDigit(rest[0]))
    ensures DigitRun(a + rest) == |a|
    decreases |a|
  {
    if a != [] {
      assert (a + rest)[1..] == a[1..] + rest;
      assert (a + rest)[0] == a[0];
      DigitRunOf(a[1..], rest);
    } else {
      assert a + rest == rest;
    }
  }

  /** Reads `"<digits>h <digits>m"` back into the two numbers. */
  function ParseHoursMinutes(s: string): Option<(int, int)>
  {
    var n := DigitRun(s);
    var rest := s[n..];
    if n >= 1 && |rest| >= 4 && rest[0] == 'h' && rest[1] == ' ' && rest[|rest| - 1] == 'm'
       && IsDigits(rest[2..|rest| - 1])
    then Some((ValueOf(s[..n]), ValueOf(rest[2..|rest| - 1])))
    else None
  }

  /** `focusTimeString()`: rounded to whole seconds, clamped at zero, then whole hours and minutes. */
  function FocusTimeString(x: real): (text: string)
    ensures x < 0.5 ==> text == "0h 0m"
    ensures var (h, m) := HoursMinutes(RoundedSeconds(x)); text == HoursMinutesText(h, m) && h >= 0 && 0 <= m < 60
  {
    var totalSeconds := RoundedSeconds(x);
    HoursMinutesBounds(totalSeconds);
    var (hours, minutes) := HoursMinutes(totalSeconds);
    HoursMinutesText(hours, minutes)
  }
}
