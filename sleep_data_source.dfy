/**
 * Grouping sleep stages into sessions and picking a session
 * (HKSleepDataSource: arrangeSleepSessions, longestSleepSession, lastSleepSession).
 *
 * `Date()` is the parameter `now` and the iOS 16 test is `fine`. Swift's `sorted(by:)`
 * is modelled as a stable sort (insertion by start date, and ties in the selections
 * resolved as a stable sort resolves them).
 */
module SleepDataSource {
  import opened Wrappers
  import opened SleepStages
  import opened SleepSessions
  import DateIntervals

  /**
   * A segment stays in the current session when it starts at most this many seconds
   * after the session's end. The comments beside the test speak of one hour; the code
   * compares with 360 seconds, and that is what is modelled.
   */
  const GapThreshold := 360

  // ---------------------------------------------------------------------------
  // Sorting by start date (lines 238-240)
  // ---------------------------------------------------------------------------

  /** Puts `x` after every element of `sorted` that starts no later than it. */
  function InsertByStart(sorted: seq<SleepStage>, x: SleepStage): (r: seq<SleepStage>)
    ensures multiset(r) == multiset(sorted) + multiset{x}
  {
    if sorted == [] || sorted[|sorted| - 1].startDate <= x.startDate then sorted + [x]
    else
      var init := sorted[..|sorted| - 1];
      assert sorted == init + [sorted[|sorted| - 1]];
      InsertByStart(init, x) + [sorted[|sorted| - 1]]
  }

  lemma {:induction false} InsertKeepsSorted(sorted: seq<SleepStage>, x: SleepStage)
    requires SortedByStart(sorted)
    ensures SortedByStart(InsertByStart(sorted, x))
  {
    if sorted != [] && sorted[|sorted| - 1].startDate > x.startDate {
      var init := sorted[..|sorted| - 1];
      var last := sorted[|sorted| - 1];
      InsertKeepsSorted(init, x);
      var r := InsertByStart(init, x);
      forall y | y in r ensures y.startDate <= last.startDate {
        assert y in multiset(r);
        if y != x {
          var k :| 0 <= k < |init| && init[k] == y;
        }
      }
    }
  }

  /** `segments.sorted { $0.startDate < $1.startDate }`, as a stable insertion sort. */
  function SortByStart(segs: seq<SleepStage>): (r: seq<SleepStage>)
    ensures multiset(r) == multiset(segs)
  {
    if segs == [] then []
    else
      var init := segs[..|segs| - 1];
      assert segs == init + [segs[|segs| - 1]];
      InsertByStart(SortByStart(init), segs[|segs| - 1])
  }

  lemma {:induction false} SortSorts(segs: seq<SleepStage>)
    ensures SortedByStart(SortByStart(segs))
  {
    if segs != [] {
      SortSorts(segs[..|segs| - 1]);
      InsertKeepsSorted(SortByStart(segs[..|segs| - 1]), segs[|segs| - 1]);
    }
  }

  // ---------------------------------------------------------------------------
  // Grouping (lines 229-279)
  // ---------------------------------------------------------------------------

  /** The loop's state: the sessions appended so far and the current session's segments. */
  datatype Arrangement = Arrangement(closed: seq<seq<SleepStage>>, current: seq<SleepStage>)

  /**
   * One iteration: the current session, refreshed, ends at the greatest end of its
   * segments (at `now` when it is empty). If the segment starts more than the threshold
   * after that, the current session is appended when it is non-empty and a new one begun;
   * either way the segment joins the current session.
   */
  function ArrangeStep(a: Arrangement, seg: SleepStage, now: int): Arrangement {
    var within := seg.startDate - EndDate(a.current, now) <= GapThreshold;
    if !within then Arrangement(if a.current != [] then a.closed + [a.current] else a.closed, [seg])
    else Arrangement(a.closed, a.current + [seg])
  }

  /** The state after the loop has visited every segment of `sorted`. */
  function ArrangeFrom(sorted: seq<SleepStage>, now: int): Arrangement {
    if sorted == [] then Arrangement([], [])
    else ArrangeStep(ArrangeFrom(sorted[..|sorted| - 1], now), sorted[|sorted| - 1], now)
  }

  /** After the loop the current session is appended when it is non-empty. */
  function Close(a: Arrangement): seq<seq<SleepStage>> {
    if a.current != [] then a.closed + [a.current] else a.closed
  }

  lemma ArrangeFromSnoc(sorted: seq<SleepStage>, k: int, now: int)
    requires 0 <= k < |sorted|
    ensures ArrangeFrom(sorted[..k + 1], now) == ArrangeStep(ArrangeFrom(sorted[..k], now), sorted[k], now)
  {
    assert sorted[..k + 1][..k] == sorted[..k];
  }

  /** The segments of each session `arrangeSleepSessions` returns, in order. */
  function ArrangedSegments(segments: Option<seq<SleepStage>>, now: int): seq<seq<SleepStage>> {
    match segments
    case None => []
    case Some(segs) => Close(ArrangeFrom(SortByStart(segs), now))
  }

  /** The grouping with no reference to `now`: the reference definition the loop is checked against. */
  function GroupStep(a: Arrangement, seg: SleepStage): Arrangement {
    if a.current != [] && seg.startDate - MaxEnd(a.current) > GapThreshold then
      Arrangement(a.closed + [a.current], [seg])
    else Arrangement(a.closed, a.current + [seg])
  }

  function GroupFrom(sorted: seq<SleepStage>): Arrangement {
    if sorted == [] then Arrangement([], [])
    else GroupStep(GroupFrom(sorted[..|sorted| - 1]), sorted[|sorted| - 1])
  }

  function Groups(sorted: seq<SleepStage>): seq<seq<SleepStage>> {
    Close(GroupFrom(sorted))
  }

  /**
   * The result does not depend on `now`: on an empty current session both branches put
   * the segment into an empty session.
   */
  lemma {:induction false} ArrangeIgnoresNow(sorted: seq<SleepStage>, now: int)
    ensures ArrangeFrom(sorted, now) == GroupFrom(sorted)
  {
    if sorted != [] {
      ArrangeIgnoresNow(sorted[..|sorted| - 1], now);
    }
  }

  /** No input, or an empty one, gives no sessions. */
  lemma NoSegmentsNoSessions(now: int)
    ensures ArrangedSegments(None, now) == []
    ensures ArrangedSegments(Some([]), now) == []
  {
  }

  /** The segments of the sessions, one session after another. */
  function Flatten(groups: seq<seq<SleepStage>>): seq<SleepStage> {
    if groups == [] then [] else Flatten(groups[..|groups| - 1]) + groups[|groups| - 1]
  }

  /** Each segment after the first starts within the threshold of the greatest end before it. */
  ghost predicate Cohesive(g: seq<SleepStage>) {
    forall j :: 0 < j < |g| ==> g[j].startDate - MaxEnd(g[..j]) <= GapThreshold
  }

  /** Both are non-empty and `h` starts more than the threshold after the greatest end of `g`. */
  ghost predicate Apart(g: seq<SleepStage>, h: seq<SleepStage>) {
    g != [] && h != [] && h[0].startDate - MaxEnd(g) > GapThreshold
  }

  /** Every session is non-empty and cohesive. */
  ghost predicate AllCohesive(groups: seq<seq<SleepStage>>) {
    forall i :: 0 <= i < |groups| ==> groups[i] != [] && Cohesive(groups[i])
  }

  /** Each session is apart from the one before it. */
  ghost predicate Separated(groups: seq<seq<SleepStage>>) {
    forall i, j :: 0 <= i && j == i + 1 && j < |groups| ==> Apart(groups[i], groups[j])
  }

  /** What the grouping keeps true of the segments `p` visited so far. */
  ghost predicate GoodArrangement(a: Arrangement, p: seq<SleepStage>) {
    && Flatten(a.closed) + a.current == p
    && AllCohesive(a.closed)
    && Cohesive(a.current)
    && Separated(a.closed)
    && (a.closed != [] ==> Apart(a.closed[|a.closed| - 1], a.current))
  }

  lemma FlattenSnoc(groups: seq<seq<SleepStage>>, g: seq<SleepStage>)
    ensures Flatten(groups + [g]) == Flatten(groups) + g
  {
    assert (groups + [g])[..|groups|] == groups;
  }

  lemma CohesiveSnoc(g: seq<SleepStage>, seg: SleepStage)
    requires Cohesive(g)
    requires g != [] ==> seg.startDate - MaxEnd(g) <= GapThreshold
    ensures Cohesive(g + [seg])
  {
    var h := g + [seg];
    forall j | 0 < j < |h| ensures h[j].startDate - MaxEnd(h[..j]) <= GapThreshold {
      CohesiveSnocAt(g, seg, j);
    }
  }

  lemma CohesiveSnocAt(g: seq<SleepStage>, seg: SleepStage, j: int)
    requires Cohesive(g)
    requires g != [] ==> seg.startDate - MaxEnd(g) <= GapThreshold
    requires 0 < j <= |g|
    ensures (g + [seg])[j].startDate - MaxEnd((g + [seg])[..j]) <= GapThreshold
  {
    var h := g + [seg];
    if j < |g| {
      assert h[..j] == g[..j];
      assert h[j] == g[j];
      assert g[j].startDate - MaxEnd(g[..j]) <= GapThreshold;
    } else {
      assert h[..j] == g;
      assert h[j] == seg;
    }
  }

  lemma AllCohesiveSnoc(groups: seq<seq<SleepStage>>, g: seq<SleepStage>)
    requires AllCohesive(groups) && g != [] && Cohesive(g)
    ensures AllCohesive(groups + [g])
  {
    var gs := groups + [g];
    forall i | 0 <= i < |gs| ensures gs[i] != [] && Cohesive(gs[i]) {
      if i < |groups| {
        assert gs[i] == groups[i];
      }
    }
  }

  lemma SeparatedSnoc(groups: seq<seq<SleepStage>>, g: seq<SleepStage>)
    requires Separated(groups)
    requires groups != [] ==> Apart(groups[|groups| - 1], g)
    ensures Separated(groups + [g])
  {
    var gs := groups + [g];
    forall i, j | 0 <= i && j == i + 1 && j < |gs| ensures Apart(gs[i], gs[j]) {
      assert gs[i] == groups[i];
      if j < |groups| {
        assert gs[j] == groups[j];
      }
    }
  }

  /** The step that begins a new session keeps the invariant. */
  lemma SplitGood(a: Arrangement, p: seq<SleepStage>, seg: SleepStage)
    requires GoodArrangement(a, p)
    requires a.current != [] && seg.startDate - MaxEnd(a.current) > GapThreshold
    ensures GoodArrangement(Arrangement(a.closed + [a.current], [seg]), p + [seg])
  {
    FlattenSnoc(a.closed, a.current);
    AllCohesiveSnoc(a.closed, a.current);
    SeparatedSnoc(a.closed, a.current);
    assert Cohesive([seg]);
    assert Apart(a.current, [seg]);
  }

  /** The step that adds the segment to the current session keeps the invariant. */
  lemma JoinGood(a: Arrangement, p: seq<SleepStage>, seg: SleepStage)
    requires GoodArrangement(a, p)
    requires a.current != [] ==> seg.startDate - MaxEnd(a.current) <= GapThreshold
    ensures GoodArrangement(Arrangement(a.closed, a.current + [seg]), p + [seg])
  {
    CohesiveSnoc(a.current, seg);
    assert Flatten(a.closed) + (a.current + [seg]) == p + [seg];
    if a.closed != [] {
      assert (a.current + [seg])[0] == a.current[0];
    }
  }

  lemma GroupStepGood(a: Arrangement, p: seq<SleepStage>, seg: SleepStage)
    requires GoodArrangement(a, p)
    ensures GoodArrangement(GroupStep(a, seg), p + [seg])
  {
    if a.current != [] && seg.startDate - MaxEnd(a.current) > GapThreshold {
      SplitGood(a, p, seg);
    } else {
      JoinGood(a, p, seg);
    }
  }

  lemma {:induction false} GroupFromGood(sorted: seq<SleepStage>)
    ensures GoodArrangement(GroupFrom(sorted), sorted)
  {
    if sorted == [] {
      assert Cohesive([]);
    } else {
      var init := sorted[..|sorted| - 1];
      assert init + [sorted[|sorted| - 1]] == sorted;
      GroupFromGood(init);
      GroupStepGood(GroupFrom(init), init, sorted[|sorted| - 1]);
    }
  }

  /**
   * The grouping of segments in any order: the sessions, one after another, are exactly the
   * segments; no session is empty; within a session each segment starts within the
   * threshold of the greatest end before it; and each session starts more than the
   * threshold after the greatest end of the one before.
   */
  lemma GroupsProperties(sorted: seq<SleepStage>)
    ensures Flatten(Groups(sorted)) == sorted
    ensures AllCohesive(Groups(sorted))
    ensures Separated(Groups(sorted))
  {
    var a := GroupFrom(sorted);
    GroupFromGood(sorted);
    if a.current != [] {
      FlattenSnoc(a.closed, a.current);
      AllCohesiveSnoc(a.closed, a.current);
      SeparatedSnoc(a.closed, a.current);
    } else {
      assert a.closed == [];
    }
  }

  /** The concatenated sessions are the input sorted by start: nothing lost or duplicated. */
  lemma ArrangedIsSortedInput(segs: seq<SleepStage>, now: int)
    ensures Flatten(ArrangedSegments(Some(segs), now)) == SortByStart(segs)
    ensures multiset(Flatten(ArrangedSegments(Some(segs), now))) == multiset(segs)
    ensures SortedByStart(Flatten(ArrangedSegments(Some(segs), now)))
  {
    ArrangeIgnoresNow(SortByStart(segs), now);
    GroupsProperties(SortByStart(segs));
    SortSorts(segs);
  }

  /** Each piece of a sorted concatenation is sorted. */
  lemma {:induction false} FlattenSortedPieces(groups: seq<seq<SleepStage>>)
    requires SortedByStart(Flatten(groups))
    ensures forall i :: 0 <= i < |groups| ==> SortedByStart(groups[i])
  {
    if groups != [] {
      var init := groups[..|groups| - 1];
      var last := groups[|groups| - 1];
      var f := Flatten(groups);
      assert f == Flatten(init) + last;
      assert SortedByStart(Flatten(init)) by {
        forall i, j | 0 <= i < j < |Flatten(init)| ensures Flatten(init)[i].startDate <= Flatten(init)[j].startDate {
          assert f[i] == Flatten(init)[i] && f[j] == Flatten(init)[j];
        }
      }
      assert SortedByStart(last) by {
        var n := |Flatten(init)|;
        forall i, j | 0 <= i < j < |last| ensures last[i].startDate <= last[j].startDate {
          assert f[n + i] == last[i] && f[n + j] == last[j];
        }
      }
      FlattenSortedPieces(init);
    }
  }

  /**
   * Every returned session is non-empty, holds its segments in start order, keeps each
   * segment within the threshold of the greatest end before it, and starts more than the
   * threshold after the end of the session before it.
   */
  lemma ArrangedSessions(segs: seq<SleepStage>, now: int)
    ensures AllCohesive(ArrangedSegments(Some(segs), now))
    ensures Separated(ArrangedSegments(Some(segs), now))
    ensures forall g :: g in ArrangedSegments(Some(segs), now) ==> SortedByStart(g)
  {
    var gs: seq<seq<SleepStage>> := ArrangedSegments(Some(segs), now);
    ArrangeIgnoresNow(SortByStart(segs), now);
    GroupsProperties(SortByStart(segs));
    ArrangedIsSortedInput(segs, now);
    FlattenSortedPieces(gs);
  }

  /**
   * In every returned session whose segments are well formed, the total sleep duration is
   * the length of the union of its active segments.
   */
  lemma ArrangedTotalsAreUnions(segs: seq<SleepStage>, now: int, fine: bool, i: int)
    requires 0 <= i < |ArrangedSegments(Some(segs), now)|
    requires forall s :: s in segs ==> s.startDate <= s.endDate
    ensures var g := ArrangedSegments(Some(segs), now)[i];
      TotalSleepDuration(g, fine) == |DateIntervals.UnionCells(ActiveIntervals(g, fine))|
  {
    var gs: seq<seq<SleepStage>> := ArrangedSegments(Some(segs), now);
    ArrangedSessions(segs, now);
    ArrangedIsSortedInput(segs, now);
    FlattenMembers(gs, i);
    forall s: SleepStage | s in gs[i] ensures s.startDate <= s.endDate {
      assert s in multiset(Flatten(gs));
    }
    SortedTotalIsUnion(gs[i], fine);
  }

  lemma {:induction false} FlattenMembers(groups: seq<seq<SleepStage>>, i: int)
    requires 0 <= i < |groups|
    ensures forall s :: s in groups[i] ==> s in Flatten(groups)
  {
    var init := groups[..|groups| - 1];
    if i < |init| {
      FlattenMembers(init, i);
      assert groups[i] == init[i];
    }
  }

  /** The sessions hold the given segments, in order, and each is refreshed. */
  ghost predicate HoldRefreshed(sessions: seq<SleepSession>, groups: seq<seq<SleepStage>>, now: int, fine: bool)
    reads sessions
  {
    |sessions| == |groups|
    && forall i {:trigger Holds(sessions[i], groups[i], now, fine)} :: 0 <= i < |sessions| ==>
         Holds(sessions[i], groups[i], now, fine)
  }

  lemma HoldSnoc(sessions: seq<SleepSession>, session: SleepSession, groups: seq<seq<SleepStage>>,
                 segments: seq<SleepStage>, now: int, fine: bool)
    requires HoldRefreshed(sessions, groups, now, fine) && Holds(session, segments, now, fine)
    ensures HoldRefreshed(sessions + [session], groups + [segments], now, fine)
  {
    var ss := sessions + [session];
    var gs := groups + [segments];
    forall i | 0 <= i < |ss| ensures Holds(ss[i], gs[i], now, fine) {
      if i < |sessions| {
        assert ss[i] == sessions[i] && gs[i] == groups[i];
      }
    }
  }

  /** The session holds exactly `segments` and is refreshed. */
  ghost predicate Holds(session: SleepSession, segments: seq<SleepStage>, now: int, fine: bool)
    reads session
  {
    session.segments == segments && session.Refreshed(now, fine)
  }

  /**
   * The rest of one pass of the loop of arrangeSleepSessions, once the current session has
   * been refreshed: when the segment starts more than the threshold after the session's
   * end, the session is appended (if non-empty) and a new one begun; then the segment is
   * added to the current session. An appended session is not changed.
   */
  method PlaceSegment(sessions: seq<SleepSession>, currentSession: SleepSession, segment: SleepStage,
                      now: int, ghost a: Arrangement)
    returns (sessions': seq<SleepSession>, currentSession': SleepSession)
    requires forall i :: 0 <= i < |sessions| ==> sessions[i] != currentSession
    requires currentSession.segments == a.current && currentSession.endDate == Some(EndDate(a.current, now))
    modifies currentSession
    ensures currentSession' == currentSession || fresh(currentSession')
    ensures forall i :: 0 <= i < |sessions'| ==> sessions'[i] != currentSession'
    ensures currentSession'.segments == ArrangeStep(a, segment, now).current
    ensures ArrangeStep(a, segment, now).closed == a.closed ==> sessions' == sessions
    ensures ArrangeStep(a, segment, now).closed != a.closed ==>
              ArrangeStep(a, segment, now).closed == a.closed + [a.current]
              && sessions' == sessions + [currentSession] && unchanged(currentSession)
  {
    var segmentsAreWithinOneHour := true;
    if currentSession.endDate.Some? {
      segmentsAreWithinOneHour := segment.startDate - currentSession.endDate.value <= GapThreshold;
    }
    sessions' := sessions;
    currentSession' := currentSession;
    if !segmentsAreWithinOneHour {
      if currentSession.segments != [] {
        sessions' := sessions + [currentSession];
      }
      currentSession' := new SleepSession();
    }
    currentSession'.segments := currentSession'.segments + [segment];
  }

  /**
   * arrangeSleepSessions: one new, refreshed session object per group of the grouping
   * above, in order.
   */
  method ArrangeSleepSessions(segments: Option<seq<SleepStage>>, now: int, fine: bool)
    returns (sessions: seq<SleepSession>)
    ensures HoldRefreshed(sessions, ArrangedSegments(segments, now), now, fine)
    ensures forall i :: 0 <= i < |sessions| ==> fresh(sessions[i])
    ensures forall i, j :: 0 <= i < j < |sessions| ==> sessions[i] != sessions[j]
  {
    if segments.None? {
      return [];
    }
    var sorted := SortByStart(segments.value);
    sessions := ArrangeSorted(sorted, now, fine);
  }

  /** One pass of the loop: refresh the current session, then place the segment. */
  method Visit(sessions: seq<SleepSession>, currentSession: SleepSession, segment: SleepStage,
               now: int, fine: bool, ghost a: Arrangement)
    returns (sessions': seq<SleepSession>, currentSession': SleepSession)
    requires forall i :: 0 <= i < |sessions| ==> sessions[i] != currentSession
    requires currentSession.segments == a.current
    requires HoldRefreshed(sessions, a.closed, now, fine)
    modifies currentSession
    ensures currentSession' == currentSession || fresh(currentSession')
    ensures sessions' == sessions || sessions' == sessions + [currentSession]
    ensures forall i :: 0 <= i < |sessions'| ==> sessions'[i] != currentSession'
    ensures currentSession'.segments == ArrangeStep(a, segment, now).current
    ensures HoldRefreshed(sessions', ArrangeStep(a, segment, now).closed, now, fine)
  {
    currentSession.RefreshProperties(now, fine);
    sessions', currentSession' := PlaceSegment(sessions, currentSession, segment, now, a);
    if ArrangeStep(a, segment, now).closed != a.closed {
      HoldSnoc(sessions, currentSession, a.closed, a.current, now, fine);
    }
  }

  /** The loop of arrangeSleepSessions over the segments in start order. */
  method ArrangeSorted(sorted: seq<SleepStage>, now: int, fine: bool) returns (sessions: seq<SleepSession>)
    ensures HoldRefreshed(sessions, Close(ArrangeFrom(sorted, now)), now, fine)
    ensures forall i :: 0 <= i < |sessions| ==> fresh(sessions[i])
    ensures forall i, j :: 0 <= i < j < |sessions| ==> sessions[i] != sessions[j]
  {
    sessions := [];
    var currentSession := new SleepSession();
    ghost var a := Arrangement([], []);
    for k := 0 to |sorted|
      invariant fresh(currentSession)
      invariant forall i :: 0 <= i < |sessions| ==> fresh(sessions[i]) && sessions[i] != currentSession
      invariant forall i, j :: 0 <= i < j < |sessions| ==> sessions[i] != sessions[j]
      invariant a == ArrangeFrom(sorted[..k], now)
      invariant currentSession.segments == a.current
      invariant HoldRefreshed(sessions, a.closed, now, fine)
    {
      ArrangeFromSnoc(sorted, k, now);
      sessions, currentSession := Visit(sessions, currentSession, sorted[k], now, fine, a);
      a := ArrangeStep(a, sorted[k], now);
    }
    assert sorted[..|sorted|] == sorted;
    sessions := Finish(sessions, currentSession, now, fine, a);
  }

  /** After the loop: the current session, refreshed, is appended when it is non-empty. */
  method Finish(sessions: seq<SleepSession>, currentSession: SleepSession, now: int, fine: bool, ghost a: Arrangement)
    returns (sessions': seq<SleepSession>)
    requires currentSession.segments == a.current
    requires forall i :: 0 <= i < |sessions| ==> sessions[i] != currentSession
    requires HoldRefreshed(sessions, a.closed, now, fine)
    modifies currentSession
    ensures sessions' == sessions || sessions' == sessions + [currentSession]
    ensures HoldRefreshed(sessions', Close(a), now, fine)
  {
    sessions' := sessions;
    if currentSession.segments != [] {
      currentSession.RefreshProperties(now, fine);
      HoldSnoc(sessions, currentSession, a.closed, a.current, now, fine);
      sessions' := sessions + [currentSession];
    }
  }

  // ---------------------------------------------------------------------------
  // Selections (lines 283-316)
  // ---------------------------------------------------------------------------

  /**
   * longestSleepSession: the first session with the greatest total sleep duration
   * (the head of a stable descending sort), None for no sessions.
   */
  function LongestSleepSession(sessions: seq<SleepSession>): (r: Option<SleepSession>)
    reads sessions
    ensures r.None? <==> sessions == []
    ensures r.Some? ==> r.value in sessions
    ensures r.Some? ==> forall s :: s in sessions ==> s.totalSleepDuration <= r.value.totalSleepDuration
  {
    if sessions == [] then None
    else
      var rest := LongestSleepSession(sessions[1..]);
      assert forall s :: s in sessions ==> s == sessions[0] || s in sessions[1..];
      if rest.None? || sessions[0].totalSleepDuration >= rest.value.totalSleepDuration then Some(sessions[0])
      else rest
  }

  /** The end date a selection sorts by: `endDate ?? Date()`. */
  function EndKey(s: SleepSession, now: int): int
    reads s
  {
    s.endDate.GetOr(now)
  }

  /**
   * lastSleepSession as written: sorts by end date, latest first, and takes the LAST
   * element, so it returns a session with the EARLIEST end (the last such in input order).
   */
  function LastSleepSession(sessions: seq<SleepSession>, now: int): (r: Option<SleepSession>)
    reads sessions
    ensures r.None? <==> sessions == []
    ensures r.Some? ==> r.value in sessions
    ensures r.Some? ==> forall s :: s in sessions ==> EndKey(r.value, now) <= EndKey(s, now)
  {
    if sessions == [] then None
    else
      var rest := LastSleepSession(sessions[1..], now);
      assert forall s :: s in sessions ==> s == sessions[0] || s in sessions[1..];
      if rest.None? || EndKey(sessions[0], now) < EndKey(rest.value, now) then Some(sessions[0])
      else rest
  }

  /**
   * The most recent session: the first with the latest end, which is what the head of
   * the same descending sort gives.
   */
  function MostRecentSleepSession(sessions: seq<SleepSession>, now: int): (r: Option<SleepSession>)
    reads sessions
    ensures r.None? <==> sessions == []
    ensures r.Some? ==> r.value in sessions
    ensures r.Some? ==> forall s :: s in sessions ==> EndKey(s, now) <= EndKey(r.value, now)
  {
    if sessions == [] then None
    else
      var rest := MostRecentSleepSession(sessions[1..], now);
      assert forall s :: s in sessions ==> s == sessions[0] || s in sessions[1..];
      if rest.None? || EndKey(sessions[0], now) >= EndKey(rest.value, now) then Some(sessions[0])
      else rest
  }

  /**
   * Two sessions ending at different times: lastSleepSession picks the one that ended
   * first, the most recent one is the other.
   */
  lemma LastSleepSessionPicksEarliest(older: SleepSession, newer: SleepSession, now: int)
    requires older.endDate == Some(100) && newer.endDate == Some(200)
    ensures LastSleepSession([older, newer], now) == Some(older)
    ensures MostRecentSleepSession([older, newer], now) == Some(newer)
  {
    assert [older, newer][1..] == [newer];
    assert [newer][1..] == [];
  }
}
