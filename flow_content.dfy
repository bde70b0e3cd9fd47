/**
 * Flow's `ContentView`: the Start/Pause and Skip buttons of the timer page, and the
 * statistics page's week navigation, total and hours/minutes display.
 */
module FlowContent {
  import opened Wrappers
  import opened Sessions
  import opened Calendar
  import opened Format
  import opened TimerModel
  import opened FlowTimer
  import opened Aggregation
  import opened FlowGraph

  /** `FocusTimeComponents`. */
  datatype FocusTimeComponents = FocusTimeComponents(hours: int, minutes: int)

  /**
   * `focusTimeComponents()`: the seconds rounded half away from zero and clamped at zero,
   * then split into whole hours and the whole minutes left over.
   */
  function ComponentsOf(x: real): (c: FocusTimeComponents)
    ensures c.hours >= 0 && 0 <= c.minutes < 60
    ensures 3600 * c.hours + 60 * c.minutes <= RoundedSeconds(x) < 3600 * c.hours + 60 * c.minutes + 60
    ensures x < 0.5 ==> c == FocusTimeComponents(0, 0)
  {
    var totalSeconds := RoundedSeconds(x);
    HoursMinutesBounds(totalSeconds);
    var (hours, minutes) := HoursMinutes(totalSeconds);
    FocusTimeComponents(hours, minutes)
  }

  /** The tooltip's text and the large display agree on the hours and minutes of every duration. */
  lemma TooltipMatchesDisplay(x: real)
    ensures FocusTimeString(x) == HoursMinutesText(ComponentsOf(x).hours, ComponentsOf(x).minutes)
  {
  }

  /** A whole number of seconds shows as its whole hours and minutes. */
  lemma WholeSecondsComponents(total: nat)
    ensures var c := ComponentsOf(total as real);
      3600 * c.hours + 60 * c.minutes <= total < 3600 * c.hours + 60 * c.minutes + 60
  {
    RoundedWholeSeconds(total);
  }

  /** `displayedDuration`: the hovered cell's duration, otherwise the week's total. */
  function DisplayedDuration(hovered: Option<CellStat>, sessions: seq<FocusSession>, weekStart: int): (d: int)
    ensures hovered.Some? ==> d == hovered.value.duration
    ensures hovered.None? ==> d == WeekTotal(sessions, weekStart)
  {
    if hovered.Some? then hovered.value.duration else WeekTotal(sessions, weekStart)
  }

  /**
   * For a midnight week start the large display shows the sum of the grid's cells when no
   * cell is hovered, and the total duration of the hovered cell's sessions otherwise.
   */
  lemma DisplayedDurationMatchesGrid(sessions: seq<FocusSession>, weekStart: int, col: int, row: int)
    requires IsMidnight(weekStart) && 0 <= col < Columns && 0 <= row < Rows
    ensures DisplayedDuration(None, sessions, weekStart) == GridSum(DurationGrid(sessions, weekStart))
    ensures var stat := StatFor(CountGrid(sessions, weekStart), DurationGrid(sessions, weekStart), weekStart, col, row);
      DisplayedDuration(Some(stat), sessions, weekStart) == TotalDuration(CellSessions(sessions, weekStart, col, row))
  {
    WeekTotalMatchesGrid(sessions, weekStart);
    StatForCell(sessions, weekStart, col, row);
  }

  /** The Start/Pause button: pause a running timer, start it otherwise. */
  method MainButton(t: TimerManager, now: int)
    requires t.Valid()
    modifies t
    ensures t.Valid()
    ensures t.state == Running <==> old(t.state) != Running
    ensures old(t.state) == Running ==> t.Snapshot() == old(t.Snapshot()).(state := Paused, ticking := false)
    ensures old(t.state) != Running ==> t.Snapshot() == old(t.Snapshot()).(
      state := Running, endDate := Some(now + old(t.timeRemaining)), ticking := true)
  {
    if t.state == Running {
      t.Pause();
    } else {
      t.Start(now);
    }
  }

  /** The Skip button is shown exactly during a break, short or long. */
  predicate SkipOffered(mode: Mode): (offered: bool)
    ensures offered <==> mode == ShortBreak || mode == LongBreak
  {
    mode != Focus
  }

  /** The Skip button: the break ends early and the next focus period starts at once, with nothing recorded. */
  method SkipButton(t: TimerManager, now: int)
    requires t.Valid() && SkipOffered(t.mode)
    modifies t
    ensures t.Valid()
    ensures t.mode == Focus && t.state == Running
    ensures t.timeRemaining == Seconds(t.Settings(), Focus) && t.endDate == Some(now + t.timeRemaining)
    ensures t.sessions == old(t.sessions) && t.completedFocusSessions == old(t.completedFocusSessions)
    ensures t.Settings() == old(t.Settings())
  {
    t.Skip(now);
  }
}
