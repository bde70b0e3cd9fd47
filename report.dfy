/**
 * TomatoClock's `ReportView`: the sessions of the selected day, their total and average, the
 * 24-hour distribution, the per-tag breakdown and the seven-day selector.
 */
module Report {
  import opened Sessions
  import opened Calendar
  import opened Format
  import opened Aggregation
  import FlowGraph

  function OnDayOf(selectedDate: int): FocusSession -> bool
  {
    (s: FocusSession) => SameDay(s.date, selectedDate)
  }

  /** `dailySessions`: the sessions of the selected day. */
  function DailySessions(sessions: seq<FocusSession>, selectedDate: int): (daily: seq<FocusSession>)
    ensures forall s :: s in daily <==> s in sessions && SameDay(s.date, selectedDate)
  {
    FilterMembers(sessions, OnDayOf(selectedDate));
    Filter(sessions, OnDayOf(selectedDate))
  }

  /**
   * The selected day's sessions keep their history order: the day of a history split in two
   * is the day of the first part followed by the day of the second, and a session of the
   * selected day added to the history is added at the end of the day's list.
   */
  lemma DailySessionsInOrder(a: seq<FocusSession>, b: seq<FocusSession>, s: FocusSession, selectedDate: int)
    ensures DailySessions(a + b, selectedDate) == DailySessions(a, selectedDate) + DailySessions(b, selectedDate)
    ensures SameDay(s.date, selectedDate) ==> DailySessions(a + [s], selectedDate) == DailySessions(a, selectedDate) + [s]
    ensures !SameDay(s.date, selectedDate) ==> DailySessions(a + [s], selectedDate) == DailySessions(a, selectedDate)
  {
    FilterAppend(a, b, OnDayOf(selectedDate));
    FilterSnoc(a, s, OnDayOf(selectedDate));
    assert DailySessions(a, selectedDate) + [] == DailySessions(a, selectedDate);
  }

  /**
   * `formattedTotalDuration`: a day with less than an hour of focus shows its whole minutes;
   * from one hour on it shows the whole hours and the minutes below 60 left over; a negative
   * total shows only its leftover minutes, which lie in (-60, 0].
   */
  function FormattedTotalDuration(sessions: seq<FocusSession>, selectedDate: int): (text: string)
    ensures var total := TotalDuration(DailySessions(sessions, selectedDate));
      && (0 <= total < 3600 ==> text == IntString(total / 60) + "m")
      && (total >= 3600 ==>
            var (h, m) := HoursMinutes(total);
            && text == FlowGraph.HoursMinutesText(h, m)
            && h >= 1 && 0 <= m < 60 && 3600 * h + 60 * m <= total < 3600 * h + 60 * m + 60)
      && (total < 0 ==> var m := HoursMinutes(total).1; text == IntString(m) + "m" && -60 < m <= 0)
  {
    var total := TotalDuration(DailySessions(sessions, selectedDate));
    HoursMinutesCases(total);
    var (h, m) := HoursMinutes(total);
    if h > 0 then FlowGraph.HoursMinutesText(h, m) else IntString(m) + "m"
  }

  /**
   * `formattedAverageDuration`: `"0"` for a day without sessions; otherwise, when no session
   * of the day has a negative duration, the whole minutes of the mean session, that is the total divided by 60 times
   * the number of sessions, rounded down.
   */
  function FormattedAverageDuration(sessions: seq<FocusSession>, selectedDate: int): (text: string)
    ensures DailySessions(sessions, selectedDate) == [] ==> text == "0"
    ensures var daily := DailySessions(sessions, selectedDate);
      daily != [] && (forall s | s in daily :: s.duration >= 0) ==>
        && text == IntString(TotalDuration(daily) / (60 * |daily|))
        && var avg := TotalDuration(daily) / (60 * |daily|);
           60 * avg * |daily| <= TotalDuration(daily) < 60 * (avg + 1) * |daily|
  {
    var daily := DailySessions(sessions, selectedDate);
    if daily == [] then "0"
    else
      MeanMinutes(daily);
      IntString(Quot(Quot(TotalDuration(daily), |daily|), 60))
  }

  /** For sessions of non-negative duration, the two truncating divisions are one division. */
  lemma MeanMinutes(daily: seq<FocusSession>)
    requires daily != []
    ensures (forall s | s in daily :: s.duration >= 0) ==>
      var avg := TotalDuration(daily) / (60 * |daily|);
      && Quot(Quot(TotalDuration(daily), |daily|), 60) == avg
      && 60 * avg * |daily| <= TotalDuration(daily) < 60 * (avg + 1) * |daily|
  {
    if forall s | s in daily :: s.duration >= 0 {
      var total := TotalDuration(daily);
      AverageIsWholeMinutesOfMean(total, |daily|);
      WholeMinutesOfMean(total, |daily|, Quot(Quot(total, |daily|), 60));
    }
  }

  /**
   * The two truncating divisions give the whole minutes of the mean: `avg` minutes per
   * session fit in the total, `avg + 1` do not.
   */
  lemma AverageIsWholeMinutesOfMean(total: int, count: int)
    requires total >= 0 && count > 0
    ensures var avg := Quot(Quot(total, count), 60);
      avg >= 0 && 60 * avg * count <= total < 60 * (avg + 1) * count
  {
    var a := Quot(total, count);
    var avg := Quot(a, 60);
    assert 0 <= total - count * a < count;
    QuotNonNegative(total, count);
    QuotNonNegative(a, 60);
    assert 0 <= a - 60 * avg < 60;
    MulLeq(60 * avg, a, count);
    MulLeq(a + 1, 60 * (avg + 1), count);
    MulDistrib(a, count);
  }

  /** The whole minutes of the mean are one division of the total by 60 times the count. */
  lemma WholeMinutesOfMean(total: int, count: int, avg: int)
    requires count > 0
    requires 60 * avg * count <= total < 60 * (avg + 1) * count
    ensures avg == total / (60 * count)
  {
    var k := 60 * count;
    assert k * avg <= total < k * (avg + 1) by {
      assert 60 * avg * count == k * avg;
      assert 60 * (avg + 1) * count == k * (avg + 1);
    }
    var q := total / k;
    assert k * q <= total < k * q + k;
    if avg < q {
      MulLeq(avg + 1, q, k);
    } else if avg > q {
      MulLeq(q + 1, avg, k);
    }
  }

  lemma MulLeq(x: int, y: int, k: int)
    requires x <= y && k >= 0
    ensures x * k <= y * k
  {
    assert y * k - x * k == (y - x) * k;
  }

  lemma MulDistrib(a: int, count: int)
    ensures (a + 1) * count == count * a + count
  {
  }


  function AtHour(hour: int): FocusSession -> bool
  {
    (s: FocusSession) => HourOf(s.date) == hour
  }

  /** `DistributionChart`: for each hour 0 to 23, the number of sessions completed in it. */
  function HourlyCounts(sessions: seq<FocusSession>): (counts: seq<int>)
    ensures |counts| == 24
  {
    seq(24, hour => |Filter(sessions, AtHour(hour))|)
  }

  /** Without sessions every one of the 24 bars is empty. */
  lemma HourlyCountsEmpty()
    ensures HourlyCounts([]) == seq(24, hour => 0)
  {
    forall hour | 0 <= hour < 24
      ensures HourlyCounts([])[hour] == 0
    {
      NoneKept([], AtHour(hour));
    }
  }

  /** One more session adds one to the bar of its hour and to no other. */
  lemma HourlyStep(sessions: seq<FocusSession>, s: FocusSession)
    ensures HourlyCounts(sessions + [s]) == HourlyCounts(sessions)[HourOf(s.date) := HourlyCounts(sessions)[HourOf(s.date)] + 1]
  {
    forall hour | 0 <= hour < 24
      ensures HourlyCounts(sessions + [s])[hour] == HourlyCounts(sessions)[hour] + (if HourOf(s.date) == hour then 1 else 0)
    {
      FilterSnoc(sessions, s, AtHour(hour));
    }
  }

  /** Every session is in exactly one bar: the 24 counts add up to the number of sessions. */
  lemma {:induction false} HourlyTotal(sessions: seq<FocusSession>)
    ensures Sum(HourlyCounts(sessions)) == |sessions|
    decreases |sessions|
  {
    if sessions == [] {
      ZeroSum(HourlyCounts([]));
    } else {
      var rest := sessions[..|sessions| - 1];
      var s := sessions[|sessions| - 1];
      assert sessions == rest + [s];
      HourlyTotal(rest);
      HourlyStep(rest, s);
      SumUpdate(HourlyCounts(rest), HourOf(s.date), HourlyCounts(rest)[HourOf(s.date)] + 1);
    }
  }

  function HasTag(name: string): FocusSession -> bool
  {
    (s: FocusSession) => s.tag == name
  }

  /** `sessions.filter { $0.tag == tag.name }.count`. */
  function TagCount(sessions: seq<FocusSession>, name: string): (n: nat)
    ensures n <= |sessions|
  {
    |Filter(sessions, HasTag(name))|
  }

  /** A row of `TagBreakdownList`: the tag at `index` of the catalog and its number of sessions. */
  datatype TagRow = TagRow(index: nat, tag: Tag, count: nat)

  /** The rows for the tags of `tags`, in their order, skipping the tags without sessions. */
  function TagRowsFrom(tags: seq<Tag>, sessions: seq<FocusSession>): seq<TagRow>
    decreases |tags|
  {
    if tags == [] then []
    else
      var n := |tags| - 1;
      var count := TagCount(sessions, tags[n].name);
      TagRowsFrom(tags[..n], sessions) + (if count > 0 then [TagRow(n, tags[n], count)] else [])
  }

  lemma TagRowsUnfold(tags: seq<Tag>, sessions: seq<FocusSession>)
    requires tags != []
    ensures var n := |tags| - 1;
      var count := TagCount(sessions, tags[n].name);
      TagRowsFrom(tags, sessions) == TagRowsFrom(tags[..n], sessions) + (if count > 0 then [TagRow(n, tags[n], count)] else [])
  {
  }

  /** Each row names a tag of `tags` by its position, with the positive number of sessions carrying its name. */
  lemma {:induction false} TagRowsCounts(tags: seq<Tag>, sessions: seq<FocusSession>)
    ensures forall i :: 0 <= i < |TagRowsFrom(tags, sessions)| ==>
      var row := TagRowsFrom(tags, sessions)[i];
      && row.index < |tags| && row.tag == tags[row.index]
      && row.count == TagCount(sessions, row.tag.name) && row.count > 0
    decreases |tags|
  {
    if tags != [] {
      var n := |tags| - 1;
      var prefix := tags[..n];
      TagRowsCounts(prefix, sessions);
      TagRowsUnfold(tags, sessions);
      var rows := TagRowsFrom(prefix, sessions);
      var all := TagRowsFrom(tags, sessions);
      forall i | 0 <= i < |all|
        ensures all[i].index < |tags| && all[i].tag == tags[all[i].index]
        ensures all[i].count == TagCount(sessions, all[i].tag.name) && all[i].count > 0
      {
        if i < |rows| {
          assert all[i] == rows[i];
          assert prefix[rows[i].index] == tags[rows[i].index];
        }
      }
    }
  }

  /** The rows follow the order of `tags`. */
  lemma {:induction false} TagRowsOrdered(tags: seq<Tag>, sessions: seq<FocusSession>)
    ensures forall i, j :: 0 <= i < j < |TagRowsFrom(tags, sessions)| ==>
      TagRowsFrom(tags, sessions)[i].index < TagRowsFrom(tags, sessions)[j].index
    decreases |tags|
  {
    if tags != [] {
      var n := |tags| - 1;
      TagRowsOrdered(tags[..n], sessions);
      TagRowsCounts(tags[..n], sessions);
      TagRowsUnfold(tags, sessions);
    }
  }

  /** The catalog positions of the rows, in order. */
  function Positions(rows: seq<TagRow>): (ps: seq<nat>)
    ensures |ps| == |rows| && forall i :: 0 <= i < |rows| ==> ps[i] == rows[i].index
  {
    seq(|rows|, i requires 0 <= i < |rows| => rows[i].index)
  }

  lemma PositionsSnoc(rows: seq<TagRow>, row: TagRow)
    ensures Positions(rows + [row]) == Positions(rows) + [row.index]
  {
  }

  /** Every tag of `tags` that has sessions has a row. */
  lemma {:induction false} TagRowsComplete(tags: seq<Tag>, sessions: seq<FocusSession>)
    ensures forall k :: 0 <= k < |tags| && TagCount(sessions, tags[k].name) > 0 ==>
      k in Positions(TagRowsFrom(tags, sessions))
    decreases |tags|
  {
    if tags != [] {
      var n := |tags| - 1;
      var prefix := tags[..n];
      TagRowsComplete(prefix, sessions);
      TagRowsUnfold(tags, sessions);
      var rows := TagRowsFrom(prefix, sessions);
      var count := TagCount(sessions, tags[n].name);
      var all := TagRowsFrom(tags, sessions);
      if count > 0 {
        PositionsSnoc(rows, TagRow(n, tags[n], count));
      } else {
        assert all == rows;
      }
      forall k | 0 <= k < |tags| && TagCount(sessions, tags[k].name) > 0
        ensures k in Positions(all)
      {
        if k < n {
          assert tags[k] == prefix[k];
          assert k in Positions(rows);
        }
      }
    }
  }

  /**
   * The rows of `TagBreakdownList`: one per catalog tag with sessions, in catalog order, each
   * with the number of sessions carrying its name.
   */
  function TagRows(sessions: seq<FocusSession>): (rows: seq<TagRow>)
    ensures forall i :: 0 <= i < |rows| ==>
      && rows[i].index < |Catalog| && rows[i].tag == Catalog[rows[i].index]
      && rows[i].count == TagCount(sessions, rows[i].tag.name) && rows[i].count > 0
    ensures forall i, j :: 0 <= i < j < |rows| ==> rows[i].index < rows[j].index
    ensures forall k :: 0 <= k < |Catalog| && TagCount(sessions, Catalog[k].name) > 0 ==>
      k in Positions(rows)
  {
    var rows := TagRowsFrom(Catalog, sessions);
    TagRowsCounts(Catalog, sessions);
    TagRowsOrdered(Catalog, sessions);
    TagRowsComplete(Catalog, sessions);
    rows
  }

  /** The width of a row's bar as a share of all the sessions listed. */
  function BarFraction(row: TagRow, sessions: seq<FocusSession>): (share: real)
    requires |sessions| > 0
    ensures 0 < row.count <= |sessions| ==> 0.0 < share <= 1.0
    ensures row.count == |sessions| ==> share == 1.0
    ensures share * |sessions| as real == row.count as real
  {
    ShareBounds(row.count, |sessions|);
    row.count as real / |sessions| as real
  }

  /** Every bar is a share in (0, 1]. */
  lemma BarFractionBounds(tags: seq<Tag>, sessions: seq<FocusSession>, i: int)
    requires 0 <= i < |TagRowsFrom(tags, sessions)|
    ensures |sessions| > 0
    ensures 0.0 < BarFraction(TagRowsFrom(tags, sessions)[i], sessions) <= 1.0
  {
    TagRowsCounts(tags, sessions);
    var row := TagRowsFrom(tags, sessions)[i];
    assert 0 < row.count <= |sessions|;
  }

  lemma ShareBounds(part: int, whole: int)
    requires whole > 0
    ensures 0 < part <= whole ==> 0.0 < part as real / whole as real <= 1.0
  {
    var p, w := part as real, whole as real;
    assert p / w * w == p;
  }

  /** The sum of the rows' counts. */
  function RowTotal(rows: seq<TagRow>): int
    decreases |rows|
  {
    if rows == [] then 0 else RowTotal(rows[..|rows| - 1]) + rows[|rows| - 1].count
  }

  function NamedIn(names: seq<string>): FocusSession -> bool
  {
    (s: FocusSession) => s.tag in names
  }

  /** A tag list's names are those of all but its last tag, then the last tag's name. */
  lemma NamesSplit(tags: seq<Tag>)
    requires tags != [] && Distinct(NamesOf(tags))
    ensures var n := |tags| - 1;
      && NamesOf(tags) == NamesOf(tags[..n]) + [tags[n].name]
      && Distinct(NamesOf(tags[..n]))
      && tags[n].name !in NamesOf(tags[..n])
  {
    var n := |tags| - 1;
    assert NamesOf(tags) == NamesOf(tags[..n]) + [tags[n].name];
  }

  /** With distinct names, a session tagged with a name of `tags` carries the last tag's name or one of the others, not both. */
  lemma NamedInSplit(tags: seq<Tag>, sessions: seq<FocusSession>)
    requires tags != [] && Distinct(NamesOf(tags))
    ensures var n := |tags| - 1;
      |Filter(sessions, NamedIn(NamesOf(tags)))|
        == |Filter(sessions, NamedIn(NamesOf(tags[..n])))| + TagCount(sessions, tags[n].name)
  {
    var n := |tags| - 1;
    NamesSplit(tags);
    var whole, others, last := NamedIn(NamesOf(tags)), NamedIn(NamesOf(tags[..n])), HasTag(tags[n].name);
    forall s | s in sessions
      ensures whole(s) == (others(s) || last(s)) && !(others(s) && last(s))
    {
    }
    FilterCountSplit(sessions, whole, others, last);
  }

  lemma RowTotalSnoc(rows: seq<TagRow>, row: TagRow)
    ensures RowTotal(rows + [row]) == RowTotal(rows) + row.count
  {
    assert (rows + [row])[..|rows|] == rows;
  }

  lemma {:induction false} RowsCountTaggedSessions(tags: seq<Tag>, sessions: seq<FocusSession>)
    requires Distinct(NamesOf(tags))
    ensures RowTotal(TagRowsFrom(tags, sessions)) == |Filter(sessions, NamedIn(NamesOf(tags)))|
    decreases |tags|
  {
    if tags == [] {
      NoneKept(sessions, NamedIn(NamesOf(tags)));
    } else {
      var n := |tags| - 1;
      NamesSplit(tags);
      RowsCountTaggedSessions(tags[..n], sessions);
      NamedInSplit(tags, sessions);
      TagRowsUnfold(tags, sessions);
      var rows := TagRowsFrom(tags[..n], sessions);
      var count := TagCount(sessions, tags[n].name);
      if count > 0 {
        RowTotalSnoc(rows, TagRow(n, tags[n], count));
      } else {
        assert rows + [] == rows;
      }
    }
  }

  /** A predicate that accepts no session of the list keeps nothing. */
  lemma {:induction false} NoneKept(sessions: seq<FocusSession>, keep: FocusSession -> bool)
    requires forall s | s in sessions :: !keep(s)
    ensures Filter(sessions, keep) == []
    decreases |sessions|
  {
    if sessions != [] {
      var rest := sessions[..|sessions| - 1];
      var last := sessions[|sessions| - 1];
      assert sessions == rest + [last];
      assert forall s | s in rest :: s in sessions;
      NoneKept(rest, keep);
      assert last in sessions;
      FilterSnoc(rest, last, keep);
    }
  }

  /**
   * The counts of the rows add up to the number of sessions whose tag is a catalog name:
   * every such session is in one row, and sessions with any other tag are in none.
   */
  lemma TagRowsTotal(sessions: seq<FocusSession>)
    ensures RowTotal(TagRows(sessions)) == |Filter(sessions, NamedIn(CatalogNames()))|
  {
    CatalogShape();
    RowsCountTaggedSessions(Catalog, sessions);
  }

  /** `WeekSelector`: today and the three days on either side, one per column. */
  function WeekSelectorDays(today: int): (days: seq<int>)
    ensures |days| == 7 && days[3] == today
    ensures forall i :: 0 <= i < 7 ==> DayIndex(days[i]) == DayIndex(today) + i - 3
  {
    var days := seq(7, i => AddDays(today, i - 3));
    assert forall i :: 0 <= i < 7 ==> DayIndex(days[i]) == DayIndex(today) + i - 3 by {
      forall i | 0 <= i < 7
        ensures DayIndex(days[i]) == DayIndex(today) + i - 3
      {
        AddDaysShiftsDay(today, i - 3);
      }
    }
    days
  }

  /**
   * The seven days are distinct, consecutive days, so at most one of them is highlighted for
   * any selected date, and tapping a day highlights that day alone.
   */
  lemma AtMostOneSelected(today: int, selectedDate: int)
    ensures var days := WeekSelectorDays(today);
      && (forall i, j :: 0 <= i < 7 && 0 <= j < 7 && SameDay(days[i], selectedDate) && SameDay(days[j], selectedDate) ==> i == j)
      && (forall i, j :: 0 <= i < 7 && 0 <= j < 7 ==> (SameDay(days[i], days[j]) <==> i == j))
  {
  }
}
