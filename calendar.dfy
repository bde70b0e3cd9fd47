/**
 * `Calendar.current` with every day exactly 86 400 seconds long and local time equal to
 * epoch time: instants are whole seconds, a day is `t / 86400` (floor) and the hour of the
 * day is `(t % 86400) / 3600`.
 */
module Calendar {
  import opened Format

  const SecondsPerHour: int := 3600
  const SecondsPerDay: int := 86400
  const DaysPerWeek: int := 7

  /** `calendar.component(.hour, from: t)`. */
  function HourOf(t: int): (h: int)
    ensures 0 <= h < 24
    ensures StartOfDay(t) + SecondsPerHour * h <= t < StartOfDay(t) + SecondsPerHour * (h + 1)
  {
    (t % SecondsPerDay) / SecondsPerHour
  }

  /** The number of the local day holding `t`. */
  function DayIndex(t: int): int
  {
    t / SecondsPerDay
  }

  /** `calendar.startOfDay(for: t)`: the midnight at or before `t`. */
  function StartOfDay(t: int): (r: int)
    ensures r <= t < r + SecondsPerDay
    ensures r % SecondsPerDay == 0
  {
    DayIndex(t) * SecondsPerDay
  }

  /** `calendar.isDate(a, inSameDayAs: b)`. */
  predicate SameDay(a: int, b: int)
  {
    DayIndex(a) == DayIndex(b)
  }

  /** `calendar.date(byAdding: .day, value: n, to: t)`. */
  function AddDays(t: int, n: int): int
  {
    t + n * SecondsPerDay
  }

  /**
   * `calendar.dateComponents([.day], from: from, to: to).day`: the number of whole days
   * elapsed, truncated toward zero.
   */
  function DaysBetween(from: int, to: int): (d: int)
    ensures to >= from ==> d >= 0 && AddDays(from, d) <= to < AddDays(from, d + 1)
  {
    Quot(to - from, SecondsPerDay)
  }

  /** `calendar.date(bySettingHour: 23, minute: 59, second: 59, of: t)`. */
  function EndOfDay(t: int): (r: int)
    ensures SameDay(r, t) && r - t < SecondsPerDay
    ensures forall u :: SameDay(u, t) ==> u <= r
  {
    StartOfDay(t) + 23 * SecondsPerHour + 59 * 60 + 59
  }

  /** True of the instants at local midnight, such as a week start. */
  predicate IsMidnight(t: int)
  {
    t % SecondsPerDay == 0
  }

  /** Adding `n` days moves to the `n`-th following day, at the same time of day. */
  lemma AddDaysShiftsDay(t: int, n: int)
    ensures DayIndex(AddDays(t, n)) == DayIndex(t) + n
    ensures HourOf(AddDays(t, n)) == HourOf(t)
  {
    var q := DayIndex(t);
    var r := t % SecondsPerDay;
    assert t == q * SecondsPerDay + r;
    assert AddDays(t, n) == (q + n) * SecondsPerDay + r;
  }

  /** `moveWeek(by:)`: `date(byAdding: .weekOfYear, value: weeks, to: weekStart)`. */
  function MoveWeek(weekStart: int, weeks: int): (r: int)
    ensures DaysBetween(weekStart, r) == DaysPerWeek * weeks
    ensures IsMidnight(weekStart) ==> IsMidnight(r)
  {
    AddDays(weekStart, DaysPerWeek * weeks)
  }

  /**
   * Two moves add up, so moving forward and then back by the same number of weeks (or back
   * and then forward) restores the week start.
   */
  lemma MoveWeekInverse(weekStart: int, weeks: int, more: int)
    ensures MoveWeek(MoveWeek(weekStart, weeks), more) == MoveWeek(weekStart, weeks + more)
    ensures MoveWeek(MoveWeek(weekStart, weeks), -weeks) == weekStart
  {
  }
}
