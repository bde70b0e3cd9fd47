/**
 * What the two `TimerManager` variants share: the mode and state enumerations, the three
 * configured durations in minutes, the `progress` ratio, and the way stored durations are
 * loaded at start-up.
 */
module TimerModel {

  datatype Mode = Focus | ShortBreak | LongBreak

  datatype TimerState = Idle | Running | Paused

  /**
   * `progress`, a `Double`. The ratio `remaining / duration` is exact here; a zero duration
   * (the duration setters accept any integer) makes the `Double` division give +infinity.
   */
  datatype Progress = Ratio(value: real) | Infinity

  const Full: Progress := Ratio(1.0)

  /** `remaining / currentDuration()` as a tick computes it, for a positive `remaining`. */
  function Fraction(remaining: int, total: int): (p: Progress)
    requires remaining > 0
    ensures p == Infinity <==> total == 0
    ensures 0 < total ==> p.Ratio? && p.value > 0.0
    ensures 0 < remaining <= total ==> p.Ratio? && p.value <= 1.0
    ensures 0 < total < remaining ==> p.Ratio? && p.value > 1.0
    ensures total < 0 ==> p.Ratio? && p.value < 0.0
  {
    if total == 0 then Infinity else Ratio(remaining as real / total as real)
  }

  /** `focusDuration`, `shortBreakDuration`, `longBreakDuration`, in minutes. */
  datatype Durations = Durations(focus: int, shortBreak: int, longBreak: int)

  /** The initial values of the three duration properties. */
  const Defaults: Durations := Durations(25, 5, 15)

  function Minutes(d: Durations, m: Mode): int
  {
    match m
    case Focus => d.focus
    case ShortBreak => d.shortBreak
    case LongBreak => d.longBreak
  }

  /** `duration(for: m)` (the later variant) and `currentDuration()`: minutes times 60. */
  function Seconds(d: Durations, m: Mode): (s: int)
    ensures s % 60 == 0 && s / 60 == Minutes(d, m)
  {
    60 * Minutes(d, m)
  }

  /** The setter of the duration property for `m` assigns `minutes` to it. */
  function WithMinutes(d: Durations, m: Mode, minutes: int): (r: Durations)
    ensures Minutes(r, m) == minutes
    ensures forall other :: other != m ==> Minutes(r, other) == Minutes(d, other)
  {
    match m
    case Focus => d.(focus := minutes)
    case ShortBreak => d.(shortBreak := minutes)
    case LongBreak => d.(longBreak := minutes)
  }

  /**
   * `loadDurations` with the three stored integers read before any of them is written back:
   * a stored value is taken when positive, and otherwise the current value is kept.
   */
  function Load(stored: Durations, current: Durations): (r: Durations)
    ensures forall m :: Minutes(stored, m) > 0 ==> Minutes(r, m) == Minutes(stored, m)
    ensures forall m :: Minutes(stored, m) <= 0 ==> Minutes(r, m) == Minutes(current, m)
  {
    Durations(
      if stored.focus > 0 then stored.focus else current.focus,
      if stored.shortBreak > 0 then stored.shortBreak else current.shortBreak,
      if stored.longBreak > 0 then stored.longBreak else current.longBreak)
  }

  /** Durations saved by `saveDurations` come back unchanged on the next start, when positive. */
  lemma LoadRestoresSaved(saved: Durations, current: Durations)
    requires saved.focus > 0 && saved.shortBreak > 0 && saved.longBreak > 0
    ensures Load(saved, current) == saved
  {
    assert Minutes(Load(saved, current), Focus) == saved.focus;
    assert Minutes(Load(saved, current), ShortBreak) == saved.shortBreak;
    assert Minutes(Load(saved, current), LongBreak) == saved.longBreak;
  }

  /** A stored value of zero or below (a missing key reads as zero) never replaces a duration. */
  lemma LoadIgnoresNonPositive(stored: Durations, current: Durations, m: Mode)
    requires Minutes(stored, m) <= 0
    ensures Minutes(Load(stored, current), m) == Minutes(current, m)
  {
  }

  /**
   * `loadDurations` as written: each assignment goes through the property's `didSet`, whose
   * `saveDurations` writes all three current values back to the store before the next key
   * is read. Returns the loaded durations and the store afterwards.
   */
  function LoadAsWritten(stored: Durations, current: Durations): (r: (Durations, Durations))
  {
    var (d1, s1) := if stored.focus > 0 then var d := current.(focus := stored.focus); (d, d)
                    else (current, stored);
    var (d2, s2) := if s1.shortBreak > 0 then var d := d1.(shortBreak := s1.shortBreak); (d, d)
                    else (d1, s1);
    var (d3, s3) := if s2.longBreak > 0 then var d := d2.(longBreak := s2.longBreak); (d, d)
                    else (d2, s2);
    (d3, s3)
  }

  /**
   * As written, a positive stored focus duration makes the break durations come back as
   * they were before loading, whatever the store held for them, and the store loses them.
   */
  lemma LoadAsWrittenDropsBreaks(stored: Durations, current: Durations)
    requires stored.focus > 0 && current.shortBreak > 0 && current.longBreak > 0
    ensures LoadAsWritten(stored, current).0 == current.(focus := stored.focus)
    ensures LoadAsWritten(stored, current).1 == current.(focus := stored.focus)
  {
  }

  /** The input that shows it: 50/10/20 minutes saved, 50/5/15 loaded, where 50/10/20 was meant. */
  lemma LoadAsWrittenCounterexample()
    ensures LoadAsWritten(Durations(50, 10, 20), Defaults).0 == Durations(50, 5, 15)
    ensures Load(Durations(50, 10, 20), Defaults) == Durations(50, 10, 20)
  {
    LoadAsWrittenDropsBreaks(Durations(50, 10, 20), Defaults);
    LoadRestoresSaved(Durations(50, 10, 20), Defaults);
  }
}
