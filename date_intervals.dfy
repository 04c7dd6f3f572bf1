/**
 * Total duration covered by a list of date intervals, as computed by
 * DateIntervalCalculations.calculateTotalDuration.
 *
 * Dates are whole seconds. Intersection is Foundation's DateInterval.intersects,
 * taken to be closed: two intervals that only touch at an endpoint intersect.
 * The working `Set<DateInterval>` is a Dafny `set<Interval>`; the inner `forEach`
 * runs over a snapshot of it while the set itself is updated.
 */
module DateIntervals {

  datatype Interval = Interval(start: int, end: int) {
    function Duration(): int { end - start }

    /** Foundation's DateInterval(start:end:) demands end >= start. */
    predicate WellFormed() { start <= end }
  }

  predicate Intersects(a: Interval, b: Interval) {
    a.start <= b.end && b.start <= a.end
  }

  /** The interval from the lesser start to the greater end (the union of an intersecting pair). */
  function Hull(c: Interval, o: Interval): Interval {
    Interval(if c.start < o.start then c.start else o.start,
             if c.end > o.end then c.end else o.end)
  }

  /** The members of `w` that `c` intersects. */
  function Hits(w: set<Interval>, c: Interval): set<Interval> {
    set o | o in w && Intersects(c, o)
  }

  /**
   * The working set once the members in `done` have been visited for the current
   * interval `c`: every visited member that `c` intersects is replaced by its union with `c`.
   */
  function Partial(w: set<Interval>, done: set<Interval>, c: Interval): set<Interval> {
    var hits := Hits(done, c);
    (w - hits) + set o | o in hits :: Hull(c, o)
  }

  /** The working set after the current interval `c` has been processed. */
  function Step(w: set<Interval>, c: Interval): set<Interval> {
    if Hits(w, c) == {} then w + {c} else Partial(w, w, c)
  }

  /** The working set after every interval of `ivs` has been processed, in order. */
  function MergeAll(ivs: seq<Interval>): set<Interval> {
    if ivs == [] then {} else Step(MergeAll(ivs[..|ivs| - 1]), ivs[|ivs| - 1])
  }

  /** Sum of the durations of a set of intervals (the final `reduce(0, +)`). */
  ghost function Sum(w: set<Interval>): int {
    if w == {} then 0 else var x :| x in w; x.Duration() + Sum(w - {x})
  }

  /** The value `calculateTotalDuration` returns. */
  ghost function TotalDuration(ivs: seq<Interval>): int {
    Sum(MergeAll(ivs))
  }

  /** Sum of the durations of a sequence of intervals, overlaps counted as often as they occur. */
  function SeqSum(ivs: seq<Interval>): int {
    if ivs == [] then 0 else SeqSum(ivs[..|ivs| - 1]) + ivs[|ivs| - 1].Duration()
  }

  predicate AllWellFormed(w: set<Interval>) {
    forall o :: o in w ==> o.WellFormed()
  }

  predicate SeqWellFormed(ivs: seq<Interval>) {
    forall i :: 0 <= i < |ivs| ==> ivs[i].WellFormed()
  }

  predicate PairwiseDisjoint(w: set<Interval>) {
    forall a, b :: a in w && b in w && a != b ==> !Intersects(a, b)
  }

  predicate SortedByStart(ivs: seq<Interval>) {
    forall i, j :: 0 <= i < j < |ivs| ==> ivs[i].start <= ivs[j].start
  }

  /** The one-second cells [t, t + 1) an interval covers. */
  ghost function Cells(iv: Interval): (cells: set<int>)
    ensures forall t :: t in cells <==> iv.start <= t < iv.end
    ensures iv.WellFormed() ==> |cells| == iv.Duration()
    decreases iv.end - iv.start
  {
    if iv.end <= iv.start then {}
    else Cells(Interval(iv.start, iv.end - 1)) + {iv.end - 1}
  }

  /** The one-second cells covered by some member of a set of intervals. */
  ghost function SetCells(w: set<Interval>): set<int> {
    set o, t | o in w && t in Cells(o) :: t
  }

  /** The one-second cells covered by some interval of a sequence: the union, as a reference definition. */
  ghost function UnionCells(ivs: seq<Interval>): set<int> {
    set i, t | 0 <= i < |ivs| && t in Cells(ivs[i]) :: t
  }

  // ---------------------------------------------------------------------------
  // The algorithm as written (lines 12-52)
  // ---------------------------------------------------------------------------

  method CalculateTotalDuration(dateIntervals: seq<Interval>) returns (finalDuration: int)
    ensures finalDuration == TotalDuration(dateIntervals)
  {
    var newIntervals: set<Interval> := {};
    for k := 0 to |dateIntervals|
      invariant newIntervals == MergeAll(dateIntervals[..k])
    {
      var currInterval := dateIntervals[k];
      var didIntersect := false;
      ghost var snapshot := newIntervals;
      ghost var done: set<Interval> := {};
      var pending := newIntervals;
      while pending != {}
        invariant done !! pending && done + pending == snapshot
        invariant newIntervals == Partial(snapshot, done, currInterval)
        invariant didIntersect <==> Hits(done, currInterval) != {}
        decreases |pending|
      {
        var otherInterval :| otherInterval in pending;
        Visit(snapshot, done, currInterval, otherInterval);
        if Intersects(currInterval, otherInterval) {
          didIntersect := true;
          var newInterval := Hull(currInterval, otherInterval);
          newIntervals := newIntervals - {otherInterval};
          newIntervals := newIntervals + {newInterval};
        }
        pending := pending - {otherInterval};
        done := done + {otherInterval};
      }
      if !didIntersect {
        newIntervals := newIntervals + {currInterval};
      }
      StepDone(dateIntervals, k, snapshot, newIntervals, didIntersect);
    }
    assert dateIntervals[..|dateIntervals|] == dateIntervals;
    finalDuration := SumDurations(newIntervals);
  }

  /** The final `compactMap { $0.duration }.reduce(0, +)` over the working set. */
  method SumDurations(w: set<Interval>) returns (total: int)
    ensures total == Sum(w)
  {
    total := 0;
    var rest := w;
    while rest != {}
      invariant rest <= w
      invariant total + Sum(rest) == Sum(w)
      decreases |rest|
    {
      var x :| x in rest;
      SumRemove(rest, x);
      total := total + x.Duration();
      rest := rest - {x};
    }
  }

  /**
   * Visiting member `o` of the snapshot: when `c` intersects it, `o` is removed and its
   * union with `c` inserted; otherwise nothing changes.
   */
  lemma Visit(w: set<Interval>, done: set<Interval>, c: Interval, o: Interval)
    requires o in w && o !in done
    ensures Partial(w, done + {o}, c)
         == if Intersects(c, o) then Partial(w, done, c) - {o} + {Hull(c, o)} else Partial(w, done, c)
    ensures Hits(done + {o}, c) != {} <==> Hits(done, c) != {} || Intersects(c, o)
  {
    var hits := Hits(done, c);
    if Intersects(c, o) {
      var h := Hull(c, o);
      assert Hits(done + {o}, c) == hits + {o};
      var unions := set x | x in hits :: Hull(c, x);
      if o in unions {
        // `o` is itself the union of `c` with an earlier member, so it contains `c`
        // and its own union with `c` is `o` again: removing and re-inserting it is harmless.
        var x :| x in hits && Hull(c, x) == o;
        assert h == o;
      }
      assert (set x | x in hits + {o} :: Hull(c, x)) == unions + {h};
    } else {
      assert Hits(done + {o}, c) == hits;
    }
  }

  /** The working set once the snapshot has been visited is the next `MergeAll` prefix. */
  lemma StepDone(ivs: seq<Interval>, k: int, w: set<Interval>, w': set<Interval>, hit: bool)
    requires 0 <= k < |ivs| && w == MergeAll(ivs[..k])
    requires hit <==> Hits(w, ivs[k]) != {}
    requires w' == if hit then Partial(w, w, ivs[k]) else Partial(w, w, ivs[k]) + {ivs[k]}
    ensures w' == MergeAll(ivs[..k + 1])
  {
    assert ivs[..k + 1][..k] == ivs[..k];
  }

  lemma SumRemove(w: set<Interval>, y: Interval)
    requires y in w
    ensures Sum(w) == y.Duration() + Sum(w - {y})
    decreases |w|
  {
    var x :| x in w && Sum(w) == x.Duration() + Sum(w - {x});
    if x != y {
      SumRemove(w - {x}, y);
      SumRemove(w - {y}, x);
      assert w - {x} - {y} == w - {y} - {x};
    }
  }

  // ---------------------------------------------------------------------------
  // Properties of the result
  // ---------------------------------------------------------------------------

  predicate Contains(outer: Interval, inner: Interval) {
    outer.start <= inner.start && inner.end <= outer.end
  }

  /** The intervals of a sequence, as a set. */
  function Elements(ivs: seq<Interval>): set<Interval> {
    set i | 0 <= i < |ivs| :: ivs[i]
  }

  lemma MergeAllSnoc(ivs: seq<Interval>, c: Interval)
    ensures MergeAll(ivs + [c]) == Step(MergeAll(ivs), c)
  {
    assert (ivs + [c])[..|ivs|] == ivs;
  }

  /** Empty input gives 0 and a single interval gives its own duration (lines 16-51). */
  lemma {:induction false} EmptyAndSingle(iv: Interval)
    ensures TotalDuration([]) == 0
    ensures TotalDuration([iv]) == iv.Duration()
  {
    MergeAllSnoc([], iv);
    assert MergeAll([iv]) == {iv};
    SumRemove({iv}, iv);
    assert {iv} - {iv} == {};
  }

  /** Two intersecting intervals count from the lesser start to the greater end (lines 21-39). */
  lemma {:induction false} TwoIntersecting(a: Interval, b: Interval)
    requires Intersects(a, b)
    ensures TotalDuration([a, b])
         == (if a.end > b.end then a.end else b.end) - (if a.start < b.start then a.start else b.start)
  {
    MergeAllSnoc([], a);
    assert [] + [a] == [a];
    MergeAllSnoc([a], b);
    assert [a] + [b] == [a, b];
    assert MergeAll([a]) == {a};
    assert Hits({a}, b) == {a};
    assert MergeAll([a, b]) == {Hull(b, a)};
    SumRemove({Hull(b, a)}, Hull(b, a));
    assert {Hull(b, a)} - {Hull(b, a)} == {};
  }

  /**
   * When no two inputs intersect, each is inserted on its own and the result is the
   * plain sum of the durations (lines 17-51).
   */
  lemma {:induction false} DisjointInputsAddUp(ivs: seq<Interval>)
    requires SeqWellFormed(ivs)
    requires forall i, j :: 0 <= i < j < |ivs| ==> !Intersects(ivs[i], ivs[j])
    ensures MergeAll(ivs) == Elements(ivs)
    ensures TotalDuration(ivs) == SeqSum(ivs)
  {
    if ivs != [] {
      var init, c := ivs[..|ivs| - 1], ivs[|ivs| - 1];
      assert ivs == init + [c];
      DisjointInputsAddUp(init);
      MergeAllSnoc(init, c);
      assert Hits(Elements(init), c) == {} by {
        forall o | o in Elements(init) ensures !Intersects(c, o) {
          var i :| 0 <= i < |init| && init[i] == o;
          assert !Intersects(ivs[i], ivs[|ivs| - 1]);
        }
      }
      assert Elements(ivs) == Elements(init) + {c};
      assert c !in Elements(init) by {
        forall i | 0 <= i < |init| ensures init[i] != c {
          assert !Intersects(ivs[i], ivs[|ivs| - 1]) && Intersects(c, c);
        }
      }
      SumRemove(Elements(ivs), c);
      assert Elements(ivs) - {c} == Elements(init);
    }
  }

  /** Every input interval lies inside some member of the working set. */
  lemma {:induction false} InputsContained(ivs: seq<Interval>, i: int)
    requires 0 <= i < |ivs|
    ensures exists o :: o in MergeAll(ivs) && Contains(o, ivs[i])
  {
    var init, c := ivs[..|ivs| - 1], ivs[|ivs| - 1];
    assert ivs == init + [c];
    MergeAllSnoc(init, c);
    var w := MergeAll(init);
    if i == |ivs| - 1 {
      if Hits(w, c) != {} {
        var o :| o in Hits(w, c);
        assert Hull(c, o) in Step(w, c);
      }
    } else {
      InputsContained(init, i);
      var o :| o in w && Contains(o, init[i]);
      if o in Hits(w, c) {
        assert Hull(c, o) in Step(w, c);
      }
    }
  }

  /**
   * An interval nested inside an earlier input (a duplicate included) changes neither
   * the working set nor the total, provided the working set is pairwise disjoint, as it
   * is for input sorted by start (lines 23-39).
   */
  lemma {:induction false} NestedAddsNothing(ivs: seq<Interval>, i: int, c: Interval)
    requires 0 <= i < |ivs| && Contains(ivs[i], c) && c.WellFormed()
    requires PairwiseDisjoint(MergeAll(ivs))
    ensures MergeAll(ivs + [c]) == MergeAll(ivs)
    ensures TotalDuration(ivs + [c]) == TotalDuration(ivs)
  {
    var w := MergeAll(ivs);
    InputsContained(ivs, i);
    var o :| o in w && Contains(o, ivs[i]);
    assert Hits(w, c) == {o} by {
      forall x | x in Hits(w, c) ensures x == o {
        assert Intersects(x, o);
      }
    }
    assert Hull(c, o) == o;
    assert (set x | x in {o} :: Hull(c, x)) == {o};
    MergeAllSnoc(ivs, c);
  }

  lemma {:induction false} SetCellsInsert(w: set<Interval>, x: Interval)
    ensures SetCells(w + {x}) == SetCells(w) + Cells(x)
  {
    forall t | t in SetCells(w + {x}) ensures t in SetCells(w) + Cells(x) {
      var o :| o in w + {x} && t in Cells(o);
      if o != x {
        assert t in SetCells(w);
      }
    }
    forall t | t in SetCells(w) ensures t in SetCells(w + {x}) {
      var o :| o in w && t in Cells(o);
      assert o in w + {x};
    }
  }

  lemma UnionCellsSnoc(ivs: seq<Interval>, c: Interval)
    ensures UnionCells(ivs + [c]) == UnionCells(ivs) + Cells(c)
  {
    UnionCellsSnocWithin(ivs, c);
    UnionCellsSnocCovers(ivs, c);
  }

  lemma UnionCellsSnocWithin(ivs: seq<Interval>, c: Interval)
    ensures UnionCells(ivs + [c]) <= UnionCells(ivs) + Cells(c)
  {
    var ivs' := ivs + [c];
    forall t | t in UnionCells(ivs') ensures t in UnionCells(ivs) + Cells(c) {
      var i :| 0 <= i < |ivs'| && t in Cells(ivs'[i]);
      if i < |ivs| {
        assert ivs'[i] == ivs[i];
      }
    }
  }

  lemma UnionCellsSnocCovers(ivs: seq<Interval>, c: Interval)
    ensures UnionCells(ivs) + Cells(c) <= UnionCells(ivs + [c])
  {
    var ivs' := ivs + [c];
    forall t | t in UnionCells(ivs) ensures t in UnionCells(ivs') {
      var i :| 0 <= i < |ivs| && t in Cells(ivs[i]);
      assert ivs'[i] == ivs[i];
    }
    forall t | t in Cells(c) ensures t in UnionCells(ivs') {
      assert ivs'[|ivs|] == c;
    }
  }

  /** Over a pairwise disjoint set of intervals the sum of durations is the number of seconds covered. */
  lemma {:induction false} SumIsCoveredLength(w: set<Interval>)
    requires PairwiseDisjoint(w) && AllWellFormed(w)
    ensures Sum(w) == |SetCells(w)|
    decreases |w|
  {
    if w != {} {
      var x :| x in w;
      var rest := w - {x};
      SumRemove(w, x);
      SumIsCoveredLength(rest);
      CoveredLengthStep(w, x);
    }
  }

  /** Adding one interval to disjoint ones adds its own cells to the covered length. */
  lemma CoveredLengthStep(w: set<Interval>, x: Interval)
    requires PairwiseDisjoint(w) && AllWellFormed(w) && x in w
    ensures |SetCells(w)| == |SetCells(w - {x})| + x.Duration()
  {
    var rest := w - {x};
    assert w == rest + {x};
    SetCellsInsert(rest, x);
    RestDisjointFromOne(w, x);
  }

  lemma RestDisjointFromOne(w: set<Interval>, x: Interval)
    requires PairwiseDisjoint(w) && x in w
    ensures SetCells(w - {x}) !! Cells(x)
  {
    forall t | t in SetCells(w - {x}) ensures t !in Cells(x) {
      var o :| o in w - {x} && t in Cells(o);
      assert !Intersects(o, x);
    }
  }

  /**
   * One step on input sorted by start: at most one member of a pairwise disjoint working
   * set can intersect the new interval, so the set stays pairwise disjoint and covers
   * exactly what it covered plus the new interval.
   */
  lemma SortedStep(w: set<Interval>, c: Interval)
    requires PairwiseDisjoint(w) && AllWellFormed(w) && c.WellFormed()
    requires forall o :: o in w ==> o.start <= c.start
    ensures PairwiseDisjoint(Step(w, c)) && AllWellFormed(Step(w, c))
    ensures forall o :: o in Step(w, c) ==> o.start <= c.start
    ensures SetCells(Step(w, c)) == SetCells(w) + Cells(c)
  {
    if Hits(w, c) == {} {
      SortedStepMiss(w, c);
    } else {
      var o :| o in Hits(w, c);
      SortedStepHit(w, c, o);
    }
  }

  lemma SortedStepMiss(w: set<Interval>, c: Interval)
    requires PairwiseDisjoint(w) && AllWellFormed(w) && c.WellFormed() && Hits(w, c) == {}
    requires forall x :: x in w ==> x.start <= c.start
    ensures Step(w, c) == w + {c}
    ensures PairwiseDisjoint(w + {c}) && AllWellFormed(w + {c})
    ensures forall x :: x in w + {c} ==> x.start <= c.start
    ensures SetCells(w + {c}) == SetCells(w) + Cells(c)
  {
    MissDisjoint(w, c);
    InsertKeepsBounds(w, c);
    DisjointInsert(w, c);
    SetCellsInsert(w, c);
  }

  lemma MissDisjoint(w: set<Interval>, c: Interval)
    requires Hits(w, c) == {}
    ensures Step(w, c) == w + {c}
    ensures forall o :: o in w ==> !Intersects(o, c)
  {
    forall o | o in w ensures !Intersects(o, c) {
      assert o !in Hits(w, c);
    }
  }

  lemma InsertKeepsBounds(w: set<Interval>, c: Interval)
    requires AllWellFormed(w) && c.WellFormed()
    requires forall x :: x in w ==> x.start <= c.start
    ensures AllWellFormed(w + {c})
    ensures forall x :: x in w + {c} ==> x.start <= c.start
  {
    forall x | x in w + {c} ensures x.WellFormed() && x.start <= c.start {
      if x != c {
        assert x in w;
      }
    }
  }

  lemma SortedStepHit(w: set<Interval>, c: Interval, o: Interval)
    requires PairwiseDisjoint(w) && AllWellFormed(w) && c.WellFormed()
    requires forall x :: x in w ==> x.start <= c.start
    requires o in Hits(w, c)
    ensures Step(w, c) == (w - {o}) + {Hull(c, o)}
    ensures PairwiseDisjoint(Step(w, c)) && Hull(c, o).WellFormed() && Hull(c, o).start <= c.start
    ensures AllWellFormed(Step(w, c)) && forall x :: x in Step(w, c) ==> x.start <= c.start
    ensures SetCells(Step(w, c)) == SetCells(w) + Cells(c)
  {
    var h, rest := Hull(c, o), w - {o};
    assert w == rest + {o};
    SetCellsInsert(rest, o);
    SortedSingleHit(w, c, o);
    DisjointInsert(rest, h);
    CellsOfHull(c, o);
    SetCellsInsert(rest, h);
  }

  lemma DisjointInsert(w: set<Interval>, c: Interval)
    requires PairwiseDisjoint(w)
    requires forall o :: o in w ==> !Intersects(o, c)
    ensures PairwiseDisjoint(w + {c})
  {
  }

  /** The union of an intersecting pair covers exactly the seconds the two cover. */
  lemma CellsOfHull(c: Interval, o: Interval)
    requires Intersects(c, o) && c.WellFormed() && o.WellFormed()
    ensures Cells(Hull(c, o)) == Cells(o) + Cells(c)
  {
  }

  /** The one member a sorted step can hit is replaced by its union with the new interval. */
  lemma SortedSingleHit(w: set<Interval>, c: Interval, o: Interval)
    requires PairwiseDisjoint(w) && AllWellFormed(w) && c.WellFormed()
    requires forall x :: x in w ==> x.start <= c.start
    requires o in Hits(w, c)
    ensures Step(w, c) == (w - {o}) + {Hull(c, o)}
    ensures forall x :: x in w - {o} ==> !Intersects(x, Hull(c, o))
    ensures Hull(c, o).WellFormed() && Hull(c, o).start <= c.start
  {
    var hits := Hits(w, c);
    assert hits == {o} by {
      forall x | x in hits ensures x == o {
        assert Intersects(x, o);
      }
    }
    assert (set x | x in hits :: Hull(c, x)) == {Hull(c, o)};
    forall x | x in w - {o} ensures !Intersects(x, Hull(c, o)) {
      assert !Intersects(x, o) && !Intersects(c, x);
    }
  }

  /**
   * For input sorted by start, the working set stays pairwise disjoint and covers exactly
   * the union of the inputs.
   */
  lemma {:induction false} SortedMergeCoversUnion(ivs: seq<Interval>)
    requires SortedByStart(ivs) && SeqWellFormed(ivs)
    ensures PairwiseDisjoint(MergeAll(ivs)) && AllWellFormed(MergeAll(ivs))
    ensures ivs != [] ==> forall o :: o in MergeAll(ivs) ==> o.start <= ivs[|ivs| - 1].start
    ensures SetCells(MergeAll(ivs)) == UnionCells(ivs)
  {
    if ivs == [] {
      assert UnionCells(ivs) == {};
    } else {
      var init, c := ivs[..|ivs| - 1], ivs[|ivs| - 1];
      assert ivs == init + [c];
      SortedMergeCoversUnion(init);
      MergeAllSnoc(init, c);
      SortedStep(MergeAll(init), c);
      UnionCellsSnoc(init, c);
    }
  }

  /**
   * The promise at HKSleepSession lines 107-108 and 127-128: for input sorted by start,
   * overlapping time is counted once, so the result is the length of the union.
   */
  lemma {:induction false} SortedTotalIsUnionLength(ivs: seq<Interval>)
    requires SortedByStart(ivs) && SeqWellFormed(ivs)
    ensures TotalDuration(ivs) == |UnionCells(ivs)|
  {
    SortedMergeCoversUnion(ivs);
    SumIsCoveredLength(MergeAll(ivs));
  }

  /** The union is never longer than the plain sum of the durations. */
  lemma {:induction false} UnionAtMostSum(ivs: seq<Interval>)
    requires SeqWellFormed(ivs)
    ensures |UnionCells(ivs)| <= SeqSum(ivs)
  {
    if ivs != [] {
      var init, c := ivs[..|ivs| - 1], ivs[|ivs| - 1];
      assert ivs == init + [c];
      UnionAtMostSum(init);
      UnionCellsSnoc(init, c);
      assert |UnionCells(init) + Cells(c)| <= |UnionCells(init)| + |Cells(c)|;
    }
  }

  /** Every member of the working set is well formed when every input is. */
  lemma {:induction false} MergeAllWellFormed(ivs: seq<Interval>)
    requires SeqWellFormed(ivs)
    ensures AllWellFormed(MergeAll(ivs))
  {
    if ivs != [] {
      var init, c := ivs[..|ivs| - 1], ivs[|ivs| - 1];
      assert ivs == init + [c];
      MergeAllWellFormed(init);
      MergeAllSnoc(init, c);
    }
  }

  lemma {:induction false} SumNonNegative(w: set<Interval>)
    requires AllWellFormed(w)
    ensures Sum(w) >= 0
    decreases |w|
  {
    if w != {} {
      var x :| x in w;
      SumRemove(w, x);
      SumNonNegative(w - {x});
    }
  }

  /** The result is non-negative when every interval ends no earlier than it starts (lines 48-51). */
  lemma {:induction false} TotalNonNegative(ivs: seq<Interval>)
    requires SeqWellFormed(ivs)
    ensures TotalDuration(ivs) >= 0
  {
    MergeAllWellFormed(ivs);
    SumNonNegative(MergeAll(ivs));
  }

  /**
   * Unsorted input can be double counted: each member is merged with the current interval
   * rather than with the union built so far, so [0,2], [3,5], [1,4] leaves [0,4] and [1,5]
   * in the working set and gives 8, more than the plain sum 7 and so more than the
   * length of the union.
   */
  lemma UnsortedDoubleCount(a: Interval, b: Interval, c: Interval)
    requires a == Interval(0, 2) && b == Interval(3, 5) && c == Interval(1, 4)
    ensures MergeAll([a, b, c]) == {Interval(0, 4), Interval(1, 5)}
    ensures TotalDuration([a, b, c]) == 8
    ensures SeqSum([a, b, c]) == 7
    ensures TotalDuration([a, b, c]) > |UnionCells([a, b, c])|
  {
    var u, v := Interval(0, 4), Interval(1, 5);
    UnsortedWorkingSet(a, b, c);
    SumRemove({u, v}, u);
    assert {u, v} - {u} == {v};
    SumRemove({v}, v);
    assert {v} - {v} == {};
    assert [a, b, c][..2] == [a, b] && [a, b][..1] == [a] && [a][..0] == [];
    assert SeqSum([a]) == 2;
    assert SeqSum([a, b]) == 4;
    UnionAtMostSum([a, b, c]);
  }

  lemma UnsortedWorkingSet(a: Interval, b: Interval, c: Interval)
    requires a == Interval(0, 2) && b == Interval(3, 5) && c == Interval(1, 4)
    ensures MergeAll([a, b, c]) == {Interval(0, 4), Interval(1, 5)}
  {
    MergeAllSnoc([], a);
    assert [] + [a] == [a];
    MergeAllSnoc([a], b);
    assert [a] + [b] == [a, b];
    MergeAllSnoc([a, b], c);
    assert MergeAll([a]) == {a};
    assert Hits({a}, b) == {};
    assert MergeAll([a, b]) == {a, b};
    assert Hits({a, b}, c) == {a, b};
    assert (set o | o in {a, b} :: Hull(c, o)) == {Hull(c, a), Hull(c, b)};
    assert {a, b} - {a, b} == {};
    assert Hull(c, a) == Interval(0, 4) && Hull(c, b) == Interval(1, 5);
    assert Step({a, b}, c) == Partial({a, b}, {a, b}, c);
    assert [a, b] + [c] == [a, b, c];
  }

  /** Without disjointness, a nested interval can change the result: [1,3] lies inside
      the input [0,3], yet it widens the member [2,20] to [1,20]. */
  lemma NestedCanAddWhenOverlapping(a: Interval, b: Interval, c: Interval, d: Interval)
    requires a == Interval(0, 3) && b == Interval(8, 20) && c == Interval(2, 10) && d == Interval(1, 3)
    ensures Contains(a, d)
    ensures !PairwiseDisjoint(MergeAll([a, b, c]))
    ensures TotalDuration([a, b, c]) == 28
    ensures TotalDuration([a, b, c, d]) == 29
  {
    var u, v, v' := Interval(0, 10), Interval(2, 20), Interval(1, 20);
    OverlappingWorkingSets(a, b, c, d);
    assert Intersects(u, v);
    SumRemove({u, v}, u);
    assert {u, v} - {u} == {v};
    SumRemove({v}, v);
    assert {v} - {v} == {};
    SumRemove({u, v'}, u);
    assert {u, v'} - {u} == {v'};
    SumRemove({v'}, v');
    assert {v'} - {v'} == {};
  }

  lemma OverlappingWorkingSets(a: Interval, b: Interval, c: Interval, d: Interval)
    requires a == Interval(0, 3) && b == Interval(8, 20) && c == Interval(2, 10) && d == Interval(1, 3)
    ensures MergeAll([a, b, c]) == {Interval(0, 10), Interval(2, 20)}
    ensures MergeAll([a, b, c, d]) == {Interval(0, 10), Interval(1, 20)}
  {
    var u, v := Interval(0, 10), Interval(2, 20);
    MergeAllSnoc([], a);
    assert [] + [a] == [a];
    MergeAllSnoc([a], b);
    assert [a] + [b] == [a, b];
    MergeAllSnoc([a, b], c);
    assert [a, b] + [c] == [a, b, c];
    MergeAllSnoc([a, b, c], d);
    assert [a, b, c] + [d] == [a, b, c, d];
    assert MergeAll([a]) == {a};
    assert Hits({a}, b) == {};
    assert MergeAll([a, b]) == {a, b};
    assert Hits({a, b}, c) == {a, b};
    assert (set o | o in {a, b} :: Hull(c, o)) == {Hull(c, a), Hull(c, b)};
    assert {a, b} - {a, b} == {};
    assert Step({a, b}, c) == Partial({a, b}, {a, b}, c);
    assert MergeAll([a, b, c]) == {u, v};
    assert Hits({u, v}, d) == {u, v};
    assert (set o | o in {u, v} :: Hull(d, o)) == {Hull(d, u), Hull(d, v)};
    assert {u, v} - {u, v} == {};
    assert Step({u, v}, d) == Partial({u, v}, {u, v}, d);
  }
}
