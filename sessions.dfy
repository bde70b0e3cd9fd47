/** The session record and the tag catalog of `FocusSession.swift`. */
module Sessions {

  /** The colour of a tag; presentation only, kept so the catalog reads as in the app. */
  datatype Color = Blue | Orange | Purple | Pink | Green | Gray

  datatype Tag = Tag(name: string, color: Color)

  /**
   * A completed focus session: `date` is the instant of completion in whole seconds,
   * `duration` the seconds it lasted, `tag` the name of the tag selected at the time.
   * A datatype value never changes, as the `let` fields of the struct.
   */
  datatype FocusSession = FocusSession(id: nat, date: int, duration: int, tag: string)

  /** `Tag.defaults`. */
  const Catalog: seq<Tag> := [
    Tag("Dev", Blue),
    Tag("Reading", Orange),
    Tag("Meeting", Purple),
    Tag("Design", Pink),
    Tag("Writing", Green),
    Tag("Other", Gray)
  ]

  /** The names of `tags`, in order. */
  function NamesOf(tags: seq<Tag>): (names: seq<string>)
    ensures |names| == |tags|
    ensures forall i :: 0 <= i < |tags| ==> names[i] == tags[i].name
  {
    seq(|tags|, i requires 0 <= i < |tags| => tags[i].name)
  }

  function CatalogNames(): (names: seq<string>)
    ensures |names| == |Catalog|
    ensures forall i :: 0 <= i < |Catalog| ==> names[i] == Catalog[i].name
  {
    NamesOf(Catalog)
  }

  predicate Distinct(names: seq<string>)
  {
    forall i, j :: 0 <= i < j < |names| ==> names[i] != names[j]
  }

  /** `Tag.defaults.first!`, the tag selected when the app starts. */
  function DefaultTag(): (t: Tag)
    ensures t in Catalog && t.name == "Dev"
  {
    Catalog[0]
  }

  /** The catalog holds six tags, in this order, with pairwise distinct names. */
  lemma CatalogShape()
    ensures |Catalog| == 6
    ensures CatalogNames() == ["Dev", "Reading", "Meeting", "Design", "Writing", "Other"]
    ensures Distinct(CatalogNames())
  {
  }

  /**
   * An identifier no session of `sessions` carries. It stands for `UUID()`, which gives
   * every new session an identifier of its own.
   */
  function FreshId(sessions: seq<FocusSession>): (n: nat)
    ensures forall s | s in sessions :: s.id < n
    decreases |sessions|
  {
    if sessions == [] then 0
    else
      var rest := sessions[..|sessions| - 1];
      var last := sessions[|sessions| - 1];
      assert forall s | s in sessions :: s in rest || s == last;
      var n := FreshId(rest);
      if last.id < n then n else last.id + 1
  }

  /**
   * `sessions.filter(keep)`: the sessions that `keep` accepts, in their original order.
   * The properties hold for any predicate; the views pass the ones of their windows.
   */
  function Filter(sessions: seq<FocusSession>, keep: FocusSession -> bool): (r: seq<FocusSession>)
    ensures |r| <= |sessions|
    decreases |sessions|
  {
    if sessions == [] then []
    else
      var rest := sessions[..|sessions| - 1];
      var last := sessions[|sessions| - 1];
      assert sessions == rest + [last];
      Filter(rest, keep) + (if keep(last) then [last] else [])
  }

  /** The filtered list holds exactly the sessions of the list that `keep` accepts. */
  lemma {:induction false} FilterMembers(sessions: seq<FocusSession>, keep: FocusSession -> bool)
    ensures forall s :: s in Filter(sessions, keep) <==> s in sessions && keep(s)
    decreases |sessions|
  {
    if sessions != [] {
      var rest := sessions[..|sessions| - 1];
      var last := sessions[|sessions| - 1];
      assert sessions == rest + [last];
      FilterMembers(rest, keep);
    }
  }

  /** Filtering a list extended by one session extends the filtered list by that session, if kept. */
  lemma FilterSnoc(sessions: seq<FocusSession>, s: FocusSession, keep: FocusSession -> bool)
    ensures Filter(sessions + [s], keep) == Filter(sessions, keep) + (if keep(s) then [s] else [])
  {
    assert (sessions + [s])[..|sessions|] == sessions;
  }

  /** Two predicates that agree on every session of the list keep the same sublist. */
  lemma {:induction false} FilterAgree(sessions: seq<FocusSession>, p: FocusSession -> bool, q: FocusSession -> bool)
    requires forall s | s in sessions :: p(s) == q(s)
    ensures Filter(sessions, p) == Filter(sessions, q)
    decreases |sessions|
  {
    if sessions != [] {
      var rest := sessions[..|sessions| - 1];
      assert forall s | s in rest :: s in sessions;
      FilterAgree(rest, p, q);
    }
  }

  /** Filtering first by a weaker predicate changes nothing. */
  lemma {:induction false} FilterFilter(sessions: seq<FocusSession>, p: FocusSession -> bool, q: FocusSession -> bool)
    requires forall s | s in sessions :: q(s) ==> p(s)
    ensures Filter(Filter(sessions, p), q) == Filter(sessions, q)
    decreases |sessions|
  {
    if sessions != [] {
      var rest := sessions[..|sessions| - 1];
      var last := sessions[|sessions| - 1];
      assert forall s | s in rest :: s in sessions;
      assert sessions == rest + [last];
      FilterFilter(rest, p, q);
      FilterSnoc(rest, last, p);
      FilterSnoc(rest, last, q);
      if p(last) {
        FilterSnoc(Filter(rest, p), last, q);
      } else {
        assert last in sessions;
        assert !q(last);
        assert Filter(sessions, p) == Filter(rest, p) + [];
        assert Filter(rest, p) + [] == Filter(rest, p);
        assert Filter(sessions, q) == Filter(rest, q) + [];
        assert Filter(rest, q) + [] == Filter(rest, q);
      }
    }
  }

  /**
   * `sessions.reduce(0) { $0 + $1.duration }`: never negative when no duration is, and a
   * bound for each of the durations it adds up.
   */
  function TotalDuration(sessions: seq<FocusSession>): (total: int)
    ensures (forall s | s in sessions :: s.duration >= 0) ==>
      total >= 0 && forall s | s in sessions :: s.duration <= total
    decreases |sessions|
  {
    if sessions == [] then 0
    else
      var rest := sessions[..|sessions| - 1];
      assert forall s | s in rest :: s in sessions;
      TotalDuration(rest) + sessions[|sessions| - 1].duration
  }

  /** The total of a list extended by one session grows by that session's duration. */
  lemma TotalDurationSnoc(sessions: seq<FocusSession>, s: FocusSession)
    ensures TotalDuration(sessions + [s]) == TotalDuration(sessions) + s.duration
  {
    assert (sessions + [s])[..|sessions|] == sessions;
  }

  /** Filtering distributes over concatenation, so the kept sessions keep their relative order. */
  lemma {:induction false} FilterAppend(a: seq<FocusSession>, b: seq<FocusSession>, keep: FocusSession -> bool)
    ensures Filter(a + b, keep) == Filter(a, keep) + Filter(b, keep)
    decreases |b|
  {
    if b == [] {
      assert a + b == a;
      assert Filter(a, keep) + Filter(b, keep) == Filter(a, keep) + [];
    } else {
      var b' := b[..|b| - 1];
      var last := b[|b| - 1];
      var tail := if keep(last) then [last] else [];
      assert b == b' + [last];
      assert a + b == (a + b') + [last];
      FilterAppend(a, b', keep);
      FilterSnoc(a + b', last, keep);
      FilterSnoc(b', last, keep);
      calc {
        Filter(a + b, keep);
        Filter(a + b', keep) + tail;
        (Filter(a, keep) + Filter(b', keep)) + tail;
        Filter(a, keep) + (Filter(b', keep) + tail);
        Filter(a, keep) + Filter(b, keep);
      }
    }
  }

  /**
   * When `whole` accepts exactly the sessions that one of two exclusive predicates accepts,
   * it keeps as many sessions as the two together.
   */
  lemma {:induction false} FilterCountSplit(sessions: seq<FocusSession>, whole: FocusSession -> bool,
                                            p: FocusSession -> bool, q: FocusSession -> bool)
    requires forall s | s in sessions :: whole(s) == (p(s) || q(s)) && !(p(s) && q(s))
    ensures |Filter(sessions, whole)| == |Filter(sessions, p)| + |Filter(sessions, q)|
    decreases |sessions|
  {
    if sessions != [] {
      var rest := sessions[..|sessions| - 1];
      var last := sessions[|sessions| - 1];
      assert sessions == rest + [last];
      assert forall s | s in rest :: s in sessions;
      assert last in sessions;
      FilterCountSplit(rest, whole, p, q);
      FilterSnoc(rest, last, whole);
      FilterSnoc(rest, last, p);
      FilterSnoc(rest, last, q);
    }
  }
}
