/** TomatoClock's `ContentView`: the Start/Pause button and the statistics page's week total. */
module TomatoContent {
  import opened Wrappers
  import opened Sessions
  import opened Calendar
  import opened Format
  import opened TimerModel
  import opened TomatoTimer
  import opened Aggregation
  import FlowGraph

  /**
   * `totalFocusTime`: the week's total, truncated to whole hours and the minutes left over
   * (`Int(total) / 3600` and `(Int(total) % 3600) / 60`, no rounding).
   */
  function TotalFocusTime(sessions: seq<FocusSession>, weekStart: int): (text: string)
    ensures var (h, m) := HoursMinutes(WeekTotal(sessions, weekStart));
      && text == FlowGraph.HoursMinutesText(h, m)
      && (WeekTotal(sessions, weekStart) >= 0 ==>
            h >= 0 && 0 <= m < 60
            && 3600 * h + 60 * m <= WeekTotal(sessions, weekStart) < 3600 * h + 60 * m + 60)
  {
    var totalSeconds := WeekTotal(sessions, weekStart);
    var (hours, minutes) := HoursMinutes(totalSeconds);
    assert totalSeconds >= 0 ==> 0 <= minutes < 60 && 3600 * hours + 60 * minutes <= totalSeconds < 3600 * hours + 60 * minutes + 60 by {
      if totalSeconds >= 0 {
        HoursMinutesBounds(totalSeconds);
      }
    }
    FlowGraph.HoursMinutesText(hours, minutes)
  }

  /**
   * Whole-second totals are not affected by rounding, so a non-negative week total reads the
   * same in TomatoClock's truncating display as in Flow's rounding one.
   */
  lemma TruncationAgreesOnWholeSeconds(sessions: seq<FocusSession>, weekStart: int)
    requires WeekTotal(sessions, weekStart) >= 0
    ensures TotalFocusTime(sessions, weekStart) == FlowGraph.FocusTimeString(WeekTotal(sessions, weekStart) as real)
  {
    RoundedWholeSeconds(WeekTotal(sessions, weekStart));
  }

  /** The Start/Pause button: pause a running timer, start it otherwise. */
  method MainButton(t: TimerManager, now: int)
    requires t.Valid()
    modifies t
    ensures t.Valid()
    ensures t.state == Running <==> old(t.state) != Running
    ensures old(t.state) == Running ==> t.Snapshot() == old(t.Snapshot()).(state := Paused, ticking := false)
    ensures old(t.state) != Running ==> t.Snapshot() == old(t.Snapshot()).(
      state := Running, endDate := Some(now + old(t.timeRemaining)), ticking := true)
  {
    if t.state == Running {
      t.Pause();
    } else {
      t.Start(now);
    }
  }
}
