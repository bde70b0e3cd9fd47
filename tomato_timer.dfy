/**
 * The `TimerManager` of the older TomatoClock app: the same countdown, but the end of a
 * period only records a focus session and resets; it never moves to another mode, and
 * `skip()` is a plain reset.
 *
 * Time is whole seconds and every command that reads the clock takes `now`. The 0.1 s
 * tick subscription is the `ticking` flag; the store behind `UserDefaults` is the fields
 * `storedHistory` and `stored`.
 */
module TomatoTimer {
  import opened Wrappers
  import opened Sessions
  import opened TimerModel
  import Format

  /** Every field of a `TimerManager`, so that a contract can say what a command changes. */
  datatype Fields = Fields(
    mode: Mode,
    state: TimerState,
    timeRemaining: int,
    progress: Progress,
    durations: Durations,
    endDate: Option<int>,
    sessions: seq<FocusSession>,
    selectedTag: Tag,
    ticking: bool,
    nextId: nat,
    storedHistory: Option<seq<FocusSession>>,
    stored: Durations,
    finished: seq<Mode>)

  /** The fields after `reset()`. Unlike the later variant, the end date is left as it was. */
  function Cleared(f: Fields): (r: Fields)
    ensures r.state == Idle && r.progress == Full && !r.ticking
    ensures r.timeRemaining == Seconds(f.durations, f.mode)
    ensures r.mode == f.mode && r.sessions == f.sessions && r.endDate == f.endDate
  {
    f.(state := Idle, timeRemaining := Seconds(f.durations, f.mode), progress := Full, ticking := false)
  }

  /** The session `saveSession()` records at `now`. */
  function NewSession(f: Fields, now: int): FocusSession
  {
    FocusSession(f.nextId, now, Seconds(f.durations, f.mode), f.selectedTag.name)
  }

  /** `saveSession()` at `now`: only a focus period is recorded. */
  function Saved(f: Fields, now: int): Fields
  {
    if f.mode == Focus then
      var history := f.sessions + [NewSession(f, now)];
      f.(sessions := history, storedHistory := Some(history), nextId := f.nextId + 1)
    else f
  }

  /** `completeTimer()` at `now`: save, reset, notify. */
  function Completed(f: Fields, now: int): Fields
  {
    var r := Cleared(Saved(f, now));
    r.(finished := r.finished + [f.mode])
  }

  class TimerManager {
    var mode: Mode
    var state: TimerState
    var timeRemaining: int
    var progress: Progress
    var focusDuration: int
    var shortBreakDuration: int
    var longBreakDuration: int
    var endDate: Option<int>
    var sessions: seq<FocusSession>
    var selectedTag: Tag
    /** True while the tick subscription (`timer`) is live. */
    var ticking: bool
    /** The next session identifier to hand out. */
    var nextId: nat
    /** The stored session list: `None` when the key is missing or does not decode. */
    var storedHistory: Option<seq<FocusSession>>
    /** The three stored duration keys; a missing key reads as 0. */
    var stored: Durations
    /** The "Timer Finished" notifications sent so far, by the mode that finished. */
    ghost var finished: seq<Mode>

    function Settings(): Durations
      reads this
    {
      Durations(focusDuration, shortBreakDuration, longBreakDuration)
    }

    ghost function Snapshot(): Fields
      reads this
    {
      Fields(mode, state, timeRemaining, progress, Settings(), endDate, sessions, selectedTag,
             ticking, nextId, storedHistory, stored, finished)
    }

    /** `currentDuration()`, read from the current settings on every call: whole minutes. */
    function CurrentDuration(): (d: int)
      reads this
      ensures d % 60 == 0 && d / 60 == Minutes(Settings(), mode)
    {
      Seconds(Settings(), mode)
    }

    /**
     * `formattedTime`: a non-negative remaining time reads back as itself; a negative one
     * (a duration set below zero) shows its minutes and seconds each with a minus sign.
     */
    function FormattedTime(): (text: string)
      reads this
      ensures timeRemaining >= 0 ==> |text| >= 5 && Format.ParseClock(text) == Some(timeRemaining)
      ensures timeRemaining < 0 ==>
        text == Format.NegatedPart((-timeRemaining) / 60) + ":" + Format.NegatedPart((-timeRemaining) % 60)
    {
      if timeRemaining >= 0 then
        Format.ClockRoundTrip(timeRemaining);
        Format.Clock(timeRemaining)
      else
        Format.ClockNegative(timeRemaining);
        Format.Clock(timeRemaining)
    }

    /** The history in memory is the one in the store, and every identifier in it is taken. */
    ghost predicate HistoryPersisted()
      reads this
    {
      && (storedHistory == Some(sessions) || (storedHistory == None && sessions == []))
      && (forall s | s in sessions :: s.id < nextId)
    }

    /** A tick subscription exists exactly while running, and a running timer has an end date. */
    ghost predicate Consistent()
      reads this
    {
      && HistoryPersisted()
      && (ticking <==> state == Running)
      && (state == Running ==> endDate.Some?)
      && (state == Idle ==> progress == Full)
    }

    /** ... and an idle timer shows the whole duration of its mode. */
    ghost predicate Valid()
      reads this
    {
      Consistent() && (state == Idle ==> timeRemaining == CurrentDuration())
    }

    /**
     * `init()`: starts from the stored history and the stored durations. The random
     * demonstration sessions it adds to an empty history are not part of this model.
     */
    constructor (history: Option<seq<FocusSession>>, saved: Durations)
      ensures Valid()
      ensures mode == Focus && state == Idle && progress == Full && endDate == None
      ensures Settings() == LoadAsWritten(saved, Defaults).0
      ensures timeRemaining == Seconds(Settings(), Focus)
      ensures sessions == history.GetOr([]) && storedHistory == history
      ensures stored == LoadAsWritten(saved, Defaults).1
      ensures selectedTag == DefaultTag() && finished == [] && nextId == FreshId(sessions)
    {
      mode := Focus;
      state := Idle;
      timeRemaining := 25 * 60;
      progress := Full;
      focusDuration, shortBreakDuration, longBreakDuration := 25, 5, 15;
      endDate := None;
      sessions := [];
      selectedTag := DefaultTag();
      ticking := false;
      nextId := 0;
      storedHistory := history;
      stored := saved;
      finished := [];
      new;
      LoadHistory();
      LoadDurations();
    }

    /** `loadHistory()`: adopt the stored list when there is one. */
    method LoadHistory()
      modifies this
      ensures storedHistory.Some? ==> Snapshot() == old(Snapshot()).(
        sessions := storedHistory.value, nextId := FreshId(storedHistory.value))
      ensures storedHistory.None? ==> Snapshot() == old(Snapshot())
      ensures storedHistory.Some? ==> HistoryPersisted()
    {
      if storedHistory.Some? {
        sessions := storedHistory.value;
        nextId := FreshId(sessions);
      }
    }

    /**
     * `loadDurations()` as written: each key is read just before its assignment, and each
     * assignment runs the property's `didSet`, `saveDurations()`, which rewrites all three
     * keys before the next one is read (see `TimerModel.LoadAsWritten`).
     */
    method LoadDurations()
      requires Valid()
      modifies this
      ensures Valid()
      ensures var (d, s) := LoadAsWritten(old(stored), old(Settings()));
        Snapshot() == if old(state) == Idle
                      then old(Snapshot()).(durations := d, stored := s, timeRemaining := Seconds(d, old(mode)))
                      else old(Snapshot()).(durations := d, stored := s)
    {
      var savedFocus := stored.focus;
      if savedFocus > 0 { SetDuration(Focus, savedFocus); }
      var savedShort := stored.shortBreak;
      if savedShort > 0 { SetDuration(ShortBreak, savedShort); }
      var savedLong := stored.longBreak;
      if savedLong > 0 { SetDuration(LongBreak, savedLong); }
    }

    /**
     * Assigning `minutes` to the duration property of `m` (`focusDuration = minutes`, …),
     * which runs `saveDurations()`: the three values are stored, and an idle timer is reset.
     */
    method SetDuration(m: Mode, minutes: int)
      requires Valid()
      modifies this
      ensures Valid()
      ensures var d := WithMinutes(old(Settings()), m, minutes);
        Snapshot() == if old(state) == Idle
                      then old(Snapshot()).(durations := d, stored := d, timeRemaining := Seconds(d, old(mode)))
                      else old(Snapshot()).(durations := d, stored := d)
    {
      match m {
        case Focus => focusDuration := minutes;
        case ShortBreak => shortBreakDuration := minutes;
        case LongBreak => longBreakDuration := minutes;
      }
      SaveDurations();
    }

    /** `saveDurations()`. */
    method SaveDurations()
      requires Consistent()
      modifies this
      ensures Valid()
      ensures Snapshot() == if old(state) == Idle
                            then Cleared(old(Snapshot()).(stored := old(Settings())))
                            else old(Snapshot()).(stored := old(Settings()))
    {
      stored := Settings();
      if state == Idle {
        Reset();
      }
    }

    /** `start()`: a no-op while running; otherwise run until `now + timeRemaining`. */
    method Start(now: int)
      requires Valid()
      modifies this
      ensures Valid()
      ensures old(state) == Running ==> Snapshot() == old(Snapshot())
      ensures old(state) != Running ==> Snapshot() == old(Snapshot()).(
        state := Running, endDate := Some(now + old(timeRemaining)), ticking := true)
    {
      if state == Running {
        return;
      }
      state := Running;
      endDate := Some(now + timeRemaining);
      ticking := true;
    }

    /** `pause()`: only a running timer pauses; the remaining time stays as last computed. */
    method Pause()
      requires Valid()
      modifies this
      ensures Valid()
      ensures old(state) == Running ==> Snapshot() == old(Snapshot()).(state := Paused, ticking := false)
      ensures old(state) != Running ==> Snapshot() == old(Snapshot())
    {
      if state != Running {
        return;
      }
      ticking := false;
      state := Paused;
    }

    /** `reset()`, from any state. */
    method Reset()
      requires HistoryPersisted()
      modifies this
      ensures Valid()
      ensures Snapshot() == Cleared(old(Snapshot()))
    {
      ticking := false;
      state := Idle;
      timeRemaining := CurrentDuration();
      progress := Full;
    }

    /** `skip()`: a reset, in every mode. */
    method Skip()
      requires Valid()
      modifies this
      ensures Valid()
      ensures Snapshot() == Cleared(old(Snapshot()))
    {
      Reset();
    }

    /** `setMode(m)`. */
    method SetMode(m: Mode)
      requires Valid()
      modifies this
      ensures Valid()
      ensures Snapshot() == Cleared(old(Snapshot()).(mode := m))
    {
      mode := m;
      Reset();
    }

    /** Choosing a tag assigns `selectedTag`. */
    method SelectTag(t: Tag)
      requires Valid()
      modifies this
      ensures Valid()
      ensures Snapshot() == old(Snapshot()).(selectedTag := t)
    {
      selectedTag := t;
    }

    /**
     * `tick()` at `now`. The subscription that calls it exists only while running. With time
     * left the remaining time and progress are refreshed; otherwise the period completes.
     */
    method Tick(now: int)
      requires Valid() && state == Running
      modifies this
      ensures Valid()
      ensures var remaining := old(endDate).value - now;
        Snapshot() == if remaining > 0
                      then old(Snapshot()).(timeRemaining := remaining,
                                             progress := Fraction(remaining, old(CurrentDuration())))
                      else Completed(old(Snapshot()), now)
    {
      var remaining := endDate.value - now;
      if remaining <= 0 {
        CompleteTimer(now);
      } else {
        timeRemaining := remaining;
        progress := Fraction(remaining, CurrentDuration());
      }
    }

    /** `saveSession()`: in focus mode, append one session and store the whole list. */
    method SaveSession(now: int)
      requires HistoryPersisted()
      modifies this
      ensures HistoryPersisted()
      ensures Snapshot() == Saved(old(Snapshot()), now)
    {
      if mode != Focus {
        return;
      }
      var session := FocusSession(nextId, now, CurrentDuration(), selectedTag.name);
      nextId := nextId + 1;
      sessions := sessions + [session];
      storedHistory := Some(sessions);
    }

    /** `completeTimer()`. */
    method CompleteTimer(now: int)
      requires Valid()
      modifies this
      ensures Valid()
      ensures Snapshot() == Completed(old(Snapshot()), now)
    {
      SaveSession(now);
      Reset();
      finished := finished + [mode];
    }
  }
}

module TomatoTimerProperties {
  import opened Wrappers
  import opened Sessions
  import opened TimerModel
  import opened TomatoTimer

  /** `reset()` twice is `reset()` once, and neither touches the mode or the history. */
  lemma ResetIdempotent(f: Fields)
    ensures Cleared(Cleared(f)) == Cleared(f)
    ensures Cleared(f).mode == f.mode && Cleared(f).sessions == f.sessions
  {
  }

  /**
   * The end of a period leaves the timer idle in the same mode with its whole duration; a
   * focus period appends exactly one session of the current duration and the selected tag,
   * and a break appends none.
   */
  lemma CompletionStaysInMode(f: Fields, now: int)
    requires forall s | s in f.sessions :: s.id < f.nextId
    ensures var r := Completed(f, now);
      && r.mode == f.mode && r.state == Idle && r.progress == Full
      && r.timeRemaining == Seconds(f.durations, f.mode)
      && r.finished == f.finished + [f.mode]
      && (f.mode != Focus ==> r.sessions == f.sessions)
      && (f.mode == Focus ==>
            && |r.sessions| == |f.sessions| + 1
            && r.sessions[..|f.sessions|] == f.sessions
            && var s := r.sessions[|f.sessions|];
            && s.date == now && s.duration == Seconds(f.durations, Focus) && s.tag == f.selectedTag.name
            && (forall old_s | old_s in f.sessions :: old_s.id != s.id)
            && r.storedHistory == Some(r.sessions))
  {
    var r := Completed(f, now);
    if f.mode == Focus {
      assert r.sessions == f.sessions + [NewSession(f, now)];
      assert r.sessions[..|f.sessions|] == f.sessions;
    }
  }

  /** Pausing and starting again resumes with the remaining time frozen at the pause. */
  method PauseThenResume(t: TimerManager, later: int)
    requires t.Valid() && t.state == Running
    modifies t
    ensures t.Valid() && t.state == Running && t.mode == old(t.mode)
    ensures t.timeRemaining == old(t.timeRemaining)
    ensures t.endDate == Some(later + old(t.timeRemaining))
  {
    t.Pause();
    t.Start(later);
  }

  /**
   * From a fresh timer with nothing stored, a 25-minute focus period ends in one 1500-second
   * "Dev" session and an idle focus timer showing 25 minutes again.
   */
  method OneFocusPeriod(now: int) returns (t: TimerManager)
    ensures t.Valid()
    ensures t.sessions == [FocusSession(0, now + 1500, 1500, "Dev")]
    ensures t.mode == Focus && t.state == Idle && t.timeRemaining == 1500
    ensures t.finished == [Focus]
  {
    t := new TimerManager(None, Durations(0, 0, 0));
    t.Start(now);
    t.Tick(now + 1500);
  }

  /**
   * Durations of 50, 10 and 20 minutes saved by an earlier run come back as 50, 5 and 15:
   * the focus assignment rewrites the break keys before they are read.
   */
  method RelaunchLosesBreaks() returns (t: TimerManager)
    ensures t.Settings() == Durations(50, 5, 15) && t.stored == Durations(50, 5, 15)
    ensures t.state == Idle && t.timeRemaining == 3000
  {
    t := new TimerManager(None, Durations(50, 10, 20));
  }

  /**
   * The settings fields accept any integer: a focus duration of -5 typed into an idle timer
   * resets it to -300 seconds, shown as "-5:00".
   */
  method NegativeDurationShown() returns (t: TimerManager)
    ensures t.state == Idle && t.timeRemaining == -300
    ensures t.FormattedTime() == "-5:00"
  {
    t := new TimerManager(None, Durations(0, 0, 0));
    t.SetDuration(Focus, -5);
    Format.ClockNegativeExamples();
  }
}
