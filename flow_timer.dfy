/**
 * The `TimerManager` of the Flow app: a countdown over three modes that, when a focus
 * period ends, records a session and moves on to a break by itself.
 *
 * Time is whole seconds and every command that reads the clock takes `now`. The 0.1 s
 * tick subscription is the `ticking` flag; the store behind `UserDefaults` is the fields
 * `storedHistory` and `stored`.
 */
module FlowTimer {
  import opened Wrappers
  import opened Sessions
  import opened TimerModel
  import Format

  /** Every field of a `TimerManager`, so that a contract can say what a command changes. */
  datatype Fields = Fields(
    mode: Mode,
    state: TimerState,
    timeRemaining: int,
    progress: Progress,
    durations: Durations,
    endDate: Option<int>,
    completedFocusSessions: nat,
    sessions: seq<FocusSession>,
    selectedTag: Tag,
    ticking: bool,
    nextId: nat,
    storedHistory: Option<seq<FocusSession>>,
    stored: Durations,
    finished: seq<Mode>)

  /** The timer fields after `reset()`: idle, full duration of the mode, no end date. */
  function Cleared(f: Fields): (r: Fields)
  {
    f.(state := Idle, timeRemaining := Seconds(f.durations, f.mode), progress := Full,
       endDate := None, ticking := false)
  }

  /** `transition(to: m, autoStart: true)`: `mode = m`, `reset()`, `start()` at `now`. */
  function Restarted(f: Fields, m: Mode, now: int): (r: Fields)
  {
    var d := Seconds(f.durations, m);
    f.(mode := m, state := Running, timeRemaining := d, progress := Full,
       endDate := Some(now + d), ticking := true)
  }

  /** The break that follows the `count`-th completed focus period. */
  function NextBreak(count: nat): (m: Mode)
    ensures m != Focus
    ensures m == LongBreak <==> count % 2 == 0
  {
    if count % 2 == 0 then LongBreak else ShortBreak
  }

  /** The session `saveSession()` records at `now`. */
  function NewSession(f: Fields, now: int): FocusSession
  {
    FocusSession(f.nextId, now, Seconds(f.durations, Focus), f.selectedTag.name)
  }

  /** A focus period ends: its session is recorded and stored, and it is counted and announced. */
  function Counted(f: Fields, now: int): Fields
  {
    var history := f.sessions + [NewSession(f, now)];
    f.(sessions := history, storedHistory := Some(history), nextId := f.nextId + 1,
       completedFocusSessions := f.completedFocusSessions + 1, finished := f.finished + [Focus])
  }

  /** `completeTimer()` at `now`. */
  function Completed(f: Fields, now: int): Fields
  {
    var stopped := f.(ticking := false);
    match f.mode
    case Focus =>
      var g := Counted(stopped, now);
      Restarted(g, NextBreak(g.completedFocusSessions), now)
    case _ =>
      Restarted(stopped.(finished := f.finished + [f.mode]), Focus, now)
  }

  class TimerManager {
    var mode: Mode
    var state: TimerState
    var timeRemaining: int
    var progress: Progress
    var focusDuration: int
    var shortBreakDuration: int
    var longBreakDuration: int
    var endDate: Option<int>
    var completedFocusSessions: nat
    var sessions: seq<FocusSession>
    var selectedTag: Tag
    /** True while the tick subscription (`timer`) is live. */
    var ticking: bool
    /** The next session identifier to hand out. */
    var nextId: nat
    /** The stored session list: `None` when the key is missing or does not decode. */
    var storedHistory: Option<seq<FocusSession>>
    /** The three stored duration keys; a missing key reads as 0. */
    var stored: Durations
    /** The "Timer Finished" notifications sent so far, by the mode that finished. */
    ghost var finished: seq<Mode>

    function Settings(): Durations
      reads this
    {
      Durations(focusDuration, shortBreakDuration, longBreakDuration)
    }

    ghost function Snapshot(): Fields
      reads this
    {
      Fields(mode, state, timeRemaining, progress, Settings(), endDate, completedFocusSessions,
             sessions, selectedTag, ticking, nextId, storedHistory, stored, finished)
    }

    /** `duration(for: m)`, read from the current settings on every call: whole minutes. */
    function DurationFor(m: Mode): (d: int)
      reads this
      ensures d % 60 == 0 && d / 60 == Minutes(Settings(), m)
    {
      Seconds(Settings(), m)
    }

    /** `currentDuration()`: the configured minutes of the current mode, in seconds. */
    function CurrentDuration(): (d: int)
      reads this
      ensures d % 60 == 0 && d / 60 == Minutes(Settings(), mode)
    {
      DurationFor(mode)
    }

    /**
     * `formattedTime`: a non-negative remaining time reads back as itself; a negative one
     * (a duration set below zero) shows its minutes and seconds each with a minus sign.
     */
    function FormattedTime(): (text: string)
      reads this
      ensures timeRemaining >= 0 ==> |text| >= 5 && Format.ParseClock(text) == Some(timeRemaining)
      ensures timeRemaining < 0 ==>
        text == Format.NegatedPart((-timeRemaining) / 60) + ":" + Format.NegatedPart((-timeRemaining) % 60)
    {
      if timeRemaining >= 0 then
        Format.ClockRoundTrip(timeRemaining);
        Format.Clock(timeRemaining)
      else
        Format.ClockNegative(timeRemaining);
        Format.Clock(timeRemaining)
    }

    /** The history in memory is the one in the store, and every identifier in it is taken. */
    ghost predicate HistoryPersisted()
      reads this
    {
      && (storedHistory == Some(sessions) || (storedHistory == None && sessions == []))
      && (forall s | s in sessions :: s.id < nextId)
    }

    /** A tick subscription exists exactly while running; an idle timer is full and has no end. */
    ghost predicate Consistent()
      reads this
    {
      && HistoryPersisted()
      && (ticking <==> state == Running)
      && (state == Running ==> endDate.Some?)
      && (state == Idle ==> endDate == None && progress == Full)
    }

    /** ... and an idle timer shows the whole duration of its mode. */
    ghost predicate Valid()
      reads this
    {
      Consistent() && (state == Idle ==> timeRemaining == CurrentDuration())
    }

    /** `init()`: starts from the stored history and the stored durations. */
    constructor (history: Option<seq<FocusSession>>, saved: Durations)
      ensures Valid()
      ensures mode == Focus && state == Idle && progress == Full && endDate == None
      ensures Settings() == LoadAsWritten(saved, Defaults).0
      ensures timeRemaining == Seconds(Settings(), Focus)
      ensures sessions == history.GetOr([]) && storedHistory == history
      ensures stored == LoadAsWritten(saved, Defaults).1
      ensures completedFocusSessions == 0 && selectedTag == DefaultTag() && finished == []
      ensures nextId == FreshId(sessions)
    {
      mode := Focus;
      state := Idle;
      timeRemaining := 25 * 60;
      progress := Full;
      focusDuration, shortBreakDuration, longBreakDuration := 25, 5, 15;
      endDate := None;
      completedFocusSessions := 0;
      sessions := [];
      selectedTag := DefaultTag();
      ticking := false;
      nextId := 0;
      storedHistory := history;
      stored := saved;
      finished := [];
      new;
      LoadHistory();
      LoadDurations();
    }

    /** `loadHistory()`: adopt the stored list when there is one. */
    method LoadHistory()
      modifies this
      ensures storedHistory.Some? ==> Snapshot() == old(Snapshot()).(
        sessions := storedHistory.value, nextId := FreshId(storedHistory.value))
      ensures storedHistory.None? ==> Snapshot() == old(Snapshot())
      ensures storedHistory.Some? ==> HistoryPersisted()
    {
      if storedHistory.Some? {
        sessions := storedHistory.value;
        nextId := FreshId(sessions);
      }
    }

    /**
     * `loadDurations()` as written: each key is read just before its assignment, and each
     * assignment runs the property's `didSet`, `saveDurations()`, which rewrites all three
     * keys before the next one is read (see `TimerModel.LoadAsWritten`).
     */
    method LoadDurations()
      requires Valid()
      modifies this
      ensures Valid()
      ensures var (d, s) := LoadAsWritten(old(stored), old(Settings()));
        Snapshot() == if old(state) == Idle
                      then old(Snapshot()).(durations := d, stored := s, timeRemaining := Seconds(d, old(mode)))
                      else old(Snapshot()).(durations := d, stored := s)
    {
      var savedFocus := stored.focus;
      if savedFocus > 0 { SetDuration(Focus, savedFocus); }
      var savedShort := stored.shortBreak;
      if savedShort > 0 { SetDuration(ShortBreak, savedShort); }
      var savedLong := stored.longBreak;
      if savedLong > 0 { SetDuration(LongBreak, savedLong); }
    }

    /**
     * Assigning `minutes` to the duration property of `m` (`focusDuration = minutes`, …),
     * which runs `saveDurations()`: the three values are stored, and an idle timer is reset.
     */
    method SetDuration(m: Mode, minutes: int)
      requires Valid()
      modifies this
      ensures Valid()
      ensures var d := WithMinutes(old(Settings()), m, minutes);
        Snapshot() == if old(state) == Idle
                      then old(Snapshot()).(durations := d, stored := d, timeRemaining := Seconds(d, old(mode)))
                      else old(Snapshot()).(durations := d, stored := d)
    {
      match m {
        case Focus => focusDuration := minutes;
        case ShortBreak => shortBreakDuration := minutes;
        case LongBreak => longBreakDuration := minutes;
      }
      SaveDurations();
    }

    /** `saveDurations()`. */
    method SaveDurations()
      requires Consistent()
      modifies this
      ensures Valid()
      ensures Snapshot() == if old(state) == Idle
                            then Cleared(old(Snapshot()).(stored := old(Settings())))
                            else old(Snapshot()).(stored := old(Settings()))
    {
      stored := Settings();
      if state == Idle {
        Reset();
      }
    }

    /** `start()`: a no-op while running; otherwise run until `now + timeRemaining`. */
    method Start(now: int)
      requires Valid()
      modifies this
      ensures Valid()
      ensures old(state) == Running ==> Snapshot() == old(Snapshot())
      ensures old(state) != Running ==> Snapshot() == old(Snapshot()).(
        state := Running, endDate := Some(now + old(timeRemaining)), ticking := true)
    {
      if state == Running {
        return;
      }
      state := Running;
      endDate := Some(now + timeRemaining);
      ticking := true;
    }

    /** `pause()`: only a running timer pauses; the remaining time stays as last computed. */
    method Pause()
      requires Valid()
      modifies this
      ensures Valid()
      ensures old(state) == Running ==> Snapshot() == old(Snapshot()).(state := Paused, ticking := false)
      ensures old(state) != Running ==> Snapshot() == old(Snapshot())
    {
      if state != Running {
        return;
      }
      ticking := false;
      state := Paused;
    }

    /** `reset()`, from any state. */
    method Reset()
      requires HistoryPersisted()
      modifies this
      ensures Valid()
      ensures Snapshot() == Cleared(old(Snapshot()))
    {
      ticking := false;
      state := Idle;
      timeRemaining := CurrentDuration();
      progress := Full;
      endDate := None;
    }

    /** `skip()`: a focus period is reset; a break gives way to a running focus period. */
    method Skip(now: int)
      requires Valid()
      modifies this
      ensures Valid()
      ensures old(mode) == Focus ==> Snapshot() == Cleared(old(Snapshot()))
      ensures old(mode) != Focus ==> Snapshot() == Restarted(old(Snapshot()), Focus, now)
    {
      ticking := false;
      if mode == Focus {
        Reset();
      } else {
        Transition(Focus, true, now);
      }
    }

    /** `setMode(m)`. */
    method SetMode(m: Mode)
      requires Valid()
      modifies this
      ensures Valid()
      ensures Snapshot() == Cleared(old(Snapshot()).(mode := m))
    {
      mode := m;
      Reset();
    }

    /** Choosing a tag in the tag menu assigns `selectedTag`. */
    method SelectTag(t: Tag)
      requires Valid()
      modifies this
      ensures Valid()
      ensures Snapshot() == old(Snapshot()).(selectedTag := t)
    {
      selectedTag := t;
    }

    /**
     * `tick()` at `now`. The subscription that calls it exists only while running. With time
     * left the remaining time and progress are refreshed; otherwise the period completes.
     */
    method Tick(now: int)
      requires Valid() && state == Running
      modifies this
      ensures Valid()
      ensures var remaining := old(endDate).value - now;
        Snapshot() == if remaining > 0
                      then old(Snapshot()).(timeRemaining := remaining,
                                             progress := Fraction(remaining, old(CurrentDuration())))
                      else Completed(old(Snapshot()), now)
    {
      var remaining := endDate.value - now;
      if remaining <= 0 {
        CompleteTimer(now);
      } else {
        timeRemaining := remaining;
        progress := Fraction(remaining, CurrentDuration());
      }
    }

    /** `saveSession()`: in focus mode, append one session and store the whole list. */
    method SaveSession(now: int)
      requires HistoryPersisted()
      modifies this
      ensures HistoryPersisted()
      ensures old(mode) == Focus ==> Snapshot() == old(Snapshot()).(
        sessions := old(sessions) + [NewSession(old(Snapshot()), now)],
        storedHistory := Some(old(sessions) + [NewSession(old(Snapshot()), now)]),
        nextId := old(nextId) + 1)
      ensures old(mode) != Focus ==> Snapshot() == old(Snapshot())
    {
      if mode != Focus {
        return;
      }
      var session := FocusSession(nextId, now, CurrentDuration(), selectedTag.name);
      nextId := nextId + 1;
      sessions := sessions + [session];
      storedHistory := Some(sessions);
    }

    /** `completeTimer()`. */
    method CompleteTimer(now: int)
      requires HistoryPersisted()
      modifies this
      ensures Valid()
      ensures Snapshot() == Completed(old(Snapshot()), now)
    {
      ticking := false;
      ghost var stopped := Snapshot();
      if mode == Focus {
        SaveSession(now);
        completedFocusSessions := completedFocusSessions + 1;
        finished := finished + [Focus];
        assert Snapshot() == Counted(stopped, now);
        Transition(NextBreak(completedFocusSessions), true, now);
      } else {
        finished := finished + [mode];
        assert Snapshot() == stopped.(finished := stopped.finished + [stopped.mode]);
        Transition(Focus, true, now);
      }
    }

    /** `transition(to: m, autoStart:)`. */
    method Transition(m: Mode, autoStart: bool, now: int)
      requires HistoryPersisted()
      modifies this
      ensures Valid()
      ensures autoStart ==> Snapshot() == Restarted(old(Snapshot()), m, now)
      ensures !autoStart ==> Snapshot() == Cleared(old(Snapshot()).(mode := m))
    {
      mode := m;
      Reset();
      if autoStart {
        Start(now);
      }
    }
  }
}

module FlowTimerProperties {
  import opened Wrappers
  import opened Sessions
  import opened TimerModel
  import opened FlowTimer

  /** `reset()` twice is `reset()` once, and neither touches the mode or the history. */
  lemma ResetIdempotent(f: Fields)
    ensures Cleared(Cleared(f)) == Cleared(f)
    ensures Cleared(f).mode == f.mode && Cleared(f).sessions == f.sessions
  {
  }

  /**
   * The end of a focus period appends exactly one session, of the focus duration and the
   * selected tag, with an identifier no earlier session has; it counts the period, picks
   * the break by the parity of the new count and runs that break for its whole duration.
   */
  lemma FocusCompletion(f: Fields, now: int)
    requires f.mode == Focus
    requires forall s | s in f.sessions :: s.id < f.nextId
    ensures var r := Completed(f, now);
      && |r.sessions| == |f.sessions| + 1
      && r.sessions[..|f.sessions|] == f.sessions
      && var s := r.sessions[|f.sessions|];
      && s.date == now && s.duration == 60 * f.durations.focus && s.tag == f.selectedTag.name
      && (forall old_s | old_s in f.sessions :: old_s.id != s.id)
      && r.storedHistory == Some(r.sessions)
      && r.completedFocusSessions == f.completedFocusSessions + 1
      && (r.mode == LongBreak <==> r.completedFocusSessions % 2 == 0)
      && (r.mode == ShortBreak <==> r.completedFocusSessions % 2 == 1)
      && r.state == Running && r.timeRemaining == Seconds(f.durations, r.mode)
      && r.endDate == Some(now + r.timeRemaining)
      && r.finished == f.finished + [Focus]
  {
    var r := Completed(f, now);
    assert r.sessions == f.sessions + [NewSession(f, now)];
    assert r.sessions[..|f.sessions|] == f.sessions;
  }

  /** The end of a break records nothing and runs a whole focus period. */
  lemma BreakCompletion(f: Fields, now: int)
    requires f.mode != Focus
    ensures var r := Completed(f, now);
      && r.sessions == f.sessions && r.storedHistory == f.storedHistory
      && r.completedFocusSessions == f.completedFocusSessions
      && r.mode == Focus && r.state == Running
      && r.timeRemaining == 60 * f.durations.focus
      && r.finished == f.finished + [f.mode]
  {
  }

  /** The first completed focus period leads to a short break and the second to a long one. */
  lemma BreakOrder()
    ensures NextBreak(1) == ShortBreak && NextBreak(2) == LongBreak
    ensures forall n: nat :: NextBreak(n) != NextBreak(n + 1)
  {
  }

  /** Pausing and starting again resumes with the remaining time frozen at the pause. */
  method PauseThenResume(t: TimerManager, later: int)
    requires t.Valid() && t.state == Running
    modifies t
    ensures t.Valid() && t.state == Running && t.mode == old(t.mode)
    ensures t.timeRemaining == old(t.timeRemaining)
    ensures t.endDate == Some(later + old(t.timeRemaining))
  {
    t.Pause();
    t.Start(later);
  }

  /** Starting twice leaves a single countdown towards the end date of the first start. */
  method StartTwice(t: TimerManager, now: int, later: int)
    requires t.Valid() && t.state != Running
    modifies t
    ensures t.Valid() && t.state == Running && t.ticking
    ensures t.endDate == Some(now + old(t.timeRemaining))
  {
    t.Start(now);
    t.Start(later);
  }

  /**
   * From a fresh timer with nothing stored: one 25-minute focus period leaves one
   * 1500-second "Dev" session and a running 5-minute short break.
   */
  method OneFocusPeriod(now: int) returns (t: TimerManager)
    ensures fresh(t) && t.Valid()
    ensures t.sessions == [FocusSession(0, now + 1500, 1500, "Dev")] && t.nextId == 1
    ensures t.completedFocusSessions == 1 && t.Settings() == Defaults && t.selectedTag == DefaultTag()
    ensures t.mode == ShortBreak && t.state == Running && t.endDate == Some(now + 1800)
    ensures t.finished == [Focus]
  {
    t := new TimerManager(None, Durations(0, 0, 0));
    assert t.Settings() == Defaults && t.sessions == [] && t.nextId == 0;
    t.Start(now);
    assert t.endDate == Some(now + 1500);
    t.Tick(now + 1500);
  }

  /**
   * From a fresh timer with nothing stored: a 25-minute focus period, its 5-minute short
   * break and a second focus period leave two 1500-second "Dev" sessions and a running
   * 15-minute long break.
   */
  method FocusBreakFocus(now: int) returns (t: TimerManager)
    ensures t.Valid()
    ensures t.sessions == [FocusSession(0, now + 1500, 1500, "Dev"), FocusSession(1, now + 3300, 1500, "Dev")]
    ensures t.completedFocusSessions == 2
    ensures t.mode == LongBreak && t.state == Running && t.timeRemaining == 900
    ensures t.finished == [Focus, ShortBreak, Focus]
  {
    t := OneFocusPeriod(now);
    t.Tick(now + 1800);
    assert t.mode == Focus && t.endDate == Some(now + 3300) && t.nextId == 1;
    t.Tick(now + 3300);
    assert t.sessions == [FocusSession(0, now + 1500, 1500, "Dev")] + [FocusSession(1, now + 3300, 1500, "Dev")];
  }

  /**
   * Durations of 50, 10 and 20 minutes saved by an earlier run come back as 50, 5 and 15:
   * the focus assignment rewrites the break keys before they are read.
   */
  method RelaunchLosesBreaks() returns (t: TimerManager)
    ensures t.Settings() == Durations(50, 5, 15) && t.stored == Durations(50, 5, 15)
    ensures t.state == Idle && t.mode == Focus && t.timeRemaining == 3000
  {
    t := new TimerManager(None, Durations(50, 10, 20));
  }
}
