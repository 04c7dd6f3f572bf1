/**
 * A sleep session: a run of sleep stages and the aggregates computed from them once, so
 * that the table does not recompute them (HKSleepSession).
 *
 * `Date()` in the empty-session fallbacks is the parameter `now`; `fine` is the iOS 16
 * availability test. Date texts shown to the user are kept as the instants they show.
 */
module SleepSessions {
  import opened Wrappers
  import opened SleepProperties
  import opened SleepStages
  import DateIntervals
  import TimeFormat

  /** SleepSessionSummaryValue: one row of the summary table. */
  datatype SummaryValue = SummaryValue(titleString: Option<string>, valueString: Option<string>,
                                       highlightValue: bool, highlightAll: bool)

  /** SleepSessionDisplayValues; `wakeUpTime` None is the text "none". */
  datatype DisplayValues = DisplayValues(sessionValues: seq<SummaryValue>, stagesValues: seq<StageDisplayValues>,
                                         sleepDuration: string, wakeUpTime: Option<int>)

  const DefaultDisplayValues := DisplayValues([], [], "0", None)

  /** The stages that count as sleep: all four asleep stages from iOS 16 on, `.asleep` before. */
  function ActiveSleepStages(fine: bool): (stages: seq<Stage>)
    ensures forall s :: s in stages <==> s == AsleepUnspecified || (fine && s in {AsleepCore, AsleepDeep, AsleepREM})
    ensures InBed !in stages && Awake !in stages
  {
    if fine then [AsleepREM, AsleepDeep, AsleepCore, AsleepUnspecified] else [AsleepUnspecified]
  }

  predicate IsActive(s: SleepStage, fine: bool) {
    s.sleepAnalysis.Some? && s.sleepAnalysis.value in ActiveSleepStages(fine)
  }

  function IntervalOf(s: SleepStage): DateIntervals.Interval {
    DateIntervals.Interval(s.startDate, s.endDate)
  }

  // ---------------------------------------------------------------------------
  // The aggregates, as functions of the segments
  // ---------------------------------------------------------------------------

  /** The least start of a non-empty list of segments. */
  function MinStart(segs: seq<SleepStage>): (m: int)
    requires segs != []
    ensures exists s :: s in segs && s.startDate == m
    ensures forall s :: s in segs ==> m <= s.startDate
  {
    if |segs| == 1 then segs[0].startDate
    else
      var rest := MinStart(segs[1..]);
      assert forall s :: s in segs ==> s == segs[0] || s in segs[1..];
      if segs[0].startDate <= rest then segs[0].startDate else rest
  }

  /** The greatest end of a non-empty list of segments. */
  function MaxEnd(segs: seq<SleepStage>): (m: int)
    requires segs != []
    ensures exists s :: s in segs && s.endDate == m
    ensures forall s :: s in segs ==> s.endDate <= m
  {
    if |segs| == 1 then segs[0].endDate
    else
      var rest := MaxEnd(segs[1..]);
      assert forall s :: s in segs ==> s == segs[0] || s in segs[1..];
      if segs[0].endDate >= rest then segs[0].endDate else rest
  }

  /** calculateStartingDate: the first start, `now` for an empty session. */
  function StartingDate(segs: seq<SleepStage>, now: int): int
  {
    if segs == [] then now else MinStart(segs)
  }

  /** calculateEndDate: the last end, `now` for an empty session. */
  function EndDate(segs: seq<SleepStage>, now: int): int
  {
    if segs == [] then now else MaxEnd(segs)
  }

  /**
   * A non-empty session starts at the earliest start of its segments and ends at the
   * latest end; an empty one starts and ends at `now`.
   */
  lemma SessionBounds(segs: seq<SleepStage>, now: int)
    ensures var d := StartingDate(segs, now);
      segs != [] ==> (exists s :: s in segs && s.startDate == d) && (forall s :: s in segs ==> d <= s.startDate)
    ensures var d := EndDate(segs, now);
      segs != [] ==> (exists s :: s in segs && s.endDate == d) && (forall s :: s in segs ==> s.endDate <= d)
    ensures segs == [] ==> StartingDate(segs, now) == now && EndDate(segs, now) == now
  {
    if segs != [] {
      assert StartingDate(segs, now) == MinStart(segs);
      assert EndDate(segs, now) == MaxEnd(segs);
    }
  }

  /** The intervals of the segments `keep` accepts, in segment order. */
  function IntervalsWhere(segs: seq<SleepStage>, keep: SleepStage -> bool): (ivs: seq<DateIntervals.Interval>)
    ensures |ivs| <= |segs|
    ensures forall iv :: iv in ivs ==> exists s :: s in segs && keep(s) && IntervalOf(s) == iv
    ensures forall s :: s in segs && keep(s) ==> IntervalOf(s) in ivs
  {
    if segs == [] then []
    else
      var init := segs[..|segs| - 1];
      var last := segs[|segs| - 1];
      assert forall s :: s in segs ==> s in init || s == last;
      IntervalsWhere(init, keep) + (if keep(last) then [IntervalOf(last)] else [])
  }

  function ActiveIntervals(segs: seq<SleepStage>, fine: bool): seq<DateIntervals.Interval> {
    IntervalsWhere(segs, (s: SleepStage) => IsActive(s, fine))
  }

  function StageIntervals(segs: seq<SleepStage>, stage: Stage): seq<DateIntervals.Interval> {
    IntervalsWhere(segs, (s: SleepStage) => s.sleepAnalysis == Some(stage))
  }

  /** calculateTotalSleepDuration: the merged duration of the active segments only. */
  ghost function TotalSleepDuration(segs: seq<SleepStage>, fine: bool): int {
    DateIntervals.TotalDuration(ActiveIntervals(segs, fine))
  }

  /** totalDuration(for:): the merged duration of the segments of one stage. */
  ghost function StageDuration(segs: seq<SleepStage>, stage: Stage): int {
    DateIntervals.TotalDuration(StageIntervals(segs, stage))
  }

  /** `verboseTimeString()` of a whole number of seconds, without seconds. */
  function Verbose(seconds: int): string {
    TimeFormat.HoursMinutesVerbose(seconds)
  }

  /** The stages the summary lists: in bed, awake, then the active stages. */
  function SummaryStages(fine: bool): (stages: seq<Stage>)
    ensures |stages| == 2 + |ActiveSleepStages(fine)|
    ensures stages[0] == InBed && stages[1] == Awake
    ensures stages[2..] == ActiveSleepStages(fine)
  {
    [InBed, Awake] + ActiveSleepStages(fine)
  }

  ghost function StageRow(segs: seq<SleepStage>, stage: Stage, fine: bool): SummaryValue {
    SummaryValue(DisplayName(stage), Some(Verbose(StageDuration(segs, stage))),
                 stage in ActiveSleepStages(fine), false)
  }

  /** One row per stage of `stages`, in order. */
  ghost function StageRows(segs: seq<SleepStage>, stages: seq<Stage>, fine: bool): (rows: seq<SummaryValue>)
    ensures |rows| == |stages|
    ensures forall i :: 0 <= i < |stages| ==> rows[i] == StageRow(segs, stages[i], fine)
  {
    seq(|stages|, i requires 0 <= i < |stages| => StageRow(segs, stages[i], fine))
  }

  /** The last row: the total sleep duration, "noData" when its text is empty. */
  function TotalRow(total: int): SummaryValue {
    var text := Verbose(total);
    SummaryValue(Some("Total sleep duration"), Some(if text == "" then "noData" else text), false, true)
  }

  /** setUpSummaryValues. */
  ghost function SummaryValues(segs: seq<SleepStage>, fine: bool): seq<SummaryValue> {
    StageRows(segs, SummaryStages(fine), fine) + [TotalRow(TotalSleepDuration(segs, fine))]
  }

  /** One display row per segment, in order. */
  ghost function StagesValues(segs: seq<SleepStage>): (rows: seq<StageDisplayValues>)
    ensures |rows| == |segs|
    ensures forall i :: 0 <= i < |segs| ==> rows[i] == TableValues(segs[i])
  {
    seq(|segs|, i requires 0 <= i < |segs| => TableValues(segs[i]))
  }

  /** setUpDisplayValues, from the fields it reads. */
  ghost function SessionDisplayValues(segs: seq<SleepStage>, summary: seq<SummaryValue>, total: int, end: Option<int>)
    : DisplayValues
  {
    DisplayValues(summary, StagesValues(segs), Verbose(total), end)
  }

  // ---------------------------------------------------------------------------
  // The session object
  // ---------------------------------------------------------------------------

  class SleepSession {
    var segments: seq<SleepStage>
    var startingDate: Option<int>
    var endDate: Option<int>
    var totalSleepDuration: int
    var summaryValues: seq<SummaryValue>
    var displayValues: DisplayValues

    constructor()
      ensures segments == [] && startingDate == None && endDate == None && totalSleepDuration == 0
      ensures summaryValues == [] && displayValues == DefaultDisplayValues
    {
      segments := [];
      startingDate := None;
      endDate := None;
      totalSleepDuration := 0;
      summaryValues := [];
      displayValues := DefaultDisplayValues;
    }

    /** Every aggregate field agrees with a recomputation from the segments. */
    ghost predicate Refreshed(now: int, fine: bool)
      reads this
    {
      && startingDate == Some(StartingDate(segments, now))
      && endDate == Some(EndDate(segments, now))
      && totalSleepDuration == TotalSleepDuration(segments, fine)
      && summaryValues == SummaryValues(segments, fine)
      && displayValues == SessionDisplayValues(segments, summaryValues, totalSleepDuration, endDate)
    }

    /** refreshProperties: recomputes every aggregate in order and leaves the segments alone. */
    method RefreshProperties(now: int, fine: bool)
      modifies this
      ensures segments == old(segments)
      ensures Refreshed(now, fine)
    {
      var start := CalculateStartingDate(now);
      startingDate := Some(start);
      var end := CalculateEndDate(now);
      endDate := Some(end);
      totalSleepDuration := CalculateTotalSleepDuration(fine);
      summaryValues := SetUpSummaryValues(fine);
      displayValues := SetUpDisplayValues();
    }

    method CalculateStartingDate(now: int) returns (d: int)
      ensures d == StartingDate(segments, now)
    {
      if segments == [] {
        return now;
      }
      d := MinStart(segments);
    }

    method CalculateEndDate(now: int) returns (d: int)
      ensures d == EndDate(segments, now)
    {
      if segments == [] {
        return now;
      }
      d := MaxEnd(segments);
    }

    method CalculateTotalSleepDuration(fine: bool) returns (total: int)
      ensures total == TotalSleepDuration(segments, fine)
    {
      total := DateIntervals.CalculateTotalDuration(ActiveIntervals(segments, fine));
    }

    method TotalDuration(stage: Stage) returns (total: int)
      ensures total == StageDuration(segments, stage)
    {
      total := DateIntervals.CalculateTotalDuration(StageIntervals(segments, stage));
    }

    /** setUpSummaryValues, which reads the total computed just before it. */
    method SetUpSummaryValues(fine: bool) returns (tableValues: seq<SummaryValue>)
      requires totalSleepDuration == TotalSleepDuration(segments, fine)
      ensures tableValues == SummaryValues(segments, fine)
    {
      tableValues := StageSummaryRows(SummaryStages(fine), fine);
      var durationString := TimeFormat.VerboseTimeString(totalSleepDuration as real, false);
      TimeFormat.WholeSecondsVerbose(totalSleepDuration);
      if durationString == "" {
        durationString := "noData";
      }
      tableValues := tableValues + [SummaryValue(Some("Total sleep duration"), Some(durationString), false, true)];
    }

    /** The `compactMap` over the summary stages. */
    method StageSummaryRows(stages: seq<Stage>, fine: bool) returns (tableValues: seq<SummaryValue>)
      ensures tableValues == StageRows(segments, stages, fine)
    {
      tableValues := [];
      for i := 0 to |stages|
        invariant |tableValues| == i
        invariant forall j :: 0 <= j < i ==> tableValues[j] == StageRow(segments, stages[j], fine)
      {
        var total := TotalDuration(stages[i]);
        var text := TimeFormat.VerboseTimeString(total as real, false);
        TimeFormat.WholeSecondsVerbose(total);
        tableValues := tableValues + [SummaryValue(DisplayName(stages[i]), Some(text),
                                                   stages[i] in ActiveSleepStages(fine), false)];
      }
    }

    /** setUpDisplayValues, which reads the fields computed just before it. */
    method SetUpDisplayValues() returns (values: DisplayValues)
      ensures values == SessionDisplayValues(segments, summaryValues, totalSleepDuration, endDate)
    {
      var rows: seq<StageDisplayValues> := [];
      for i := 0 to |segments|
        invariant |rows| == i
        invariant forall j :: 0 <= j < i ==> rows[j] == TableValues(segments[j])
      {
        var row := ComputeTableValues(segments[i]);
        rows := rows + [row];
      }
      var duration := TimeFormat.VerboseTimeString(totalSleepDuration as real, false);
      TimeFormat.WholeSecondsVerbose(totalSleepDuration);
      values := DisplayValues(summaryValues, rows, duration, endDate);
    }
  }

  // ---------------------------------------------------------------------------
  // Properties of the aggregates
  // ---------------------------------------------------------------------------

  /** Before iOS 16 only `.asleep` counts; from iOS 16 on, every asleep stage does. */
  lemma ActiveStagesByPlatform()
    ensures ActiveSleepStages(false) == [AsleepUnspecified]
    ensures |ActiveSleepStages(true)| == 4
  {
  }

  /** An empty session starts and ends at `now` and has no sleep. */
  lemma EmptySession(now: int, fine: bool)
    ensures StartingDate([], now) == now && EndDate([], now) == now
    ensures TotalSleepDuration([], fine) == 0
  {
    DateIntervals.EmptyAndSingle(DateIntervals.Interval(now, now));
  }

  /** Inserting a segment that `keep` rejects, anywhere, leaves the interval list unchanged. */
  lemma {:induction false} IntervalsWhereSkip(segs: seq<SleepStage>, i: int, seg: SleepStage, keep: SleepStage -> bool)
    requires 0 <= i <= |segs| && !keep(seg)
    ensures IntervalsWhere(segs[..i] + [seg] + segs[i..], keep) == IntervalsWhere(segs, keep)
    decreases |segs|
  {
    var longer := segs[..i] + [seg] + segs[i..];
    if i == |segs| {
      assert longer[..|longer| - 1] == segs;
    } else {
      var init := segs[..|segs| - 1];
      IntervalsWhereSkip(init, i, seg, keep);
      assert longer[..|longer| - 1] == init[..i] + [seg] + init[i..];
      assert longer[|longer| - 1] == segs[|segs| - 1];
    }
  }

  /** An in-bed, awake or nil-stage segment, inserted anywhere, does not change the total. */
  lemma InactiveSegmentAddsNothing(segs: seq<SleepStage>, i: int, seg: SleepStage, fine: bool)
    requires 0 <= i <= |segs| && !IsActive(seg, fine)
    ensures TotalSleepDuration(segs[..i] + [seg] + segs[i..], fine) == TotalSleepDuration(segs, fine)
  {
    IntervalsWhereSkip(segs, i, seg, (s: SleepStage) => IsActive(s, fine));
  }

  predicate SortedByStart(segs: seq<SleepStage>) {
    forall i, j :: 0 <= i < j < |segs| ==> segs[i].startDate <= segs[j].startDate
  }

  /** Keeping some of the segments of a list sorted by start gives intervals sorted by start. */
  lemma {:induction false} IntervalsWhereSorted(segs: seq<SleepStage>, keep: SleepStage -> bool)
    requires SortedByStart(segs)
    ensures DateIntervals.SortedByStart(IntervalsWhere(segs, keep))
    ensures (forall s :: s in segs ==> s.startDate <= s.endDate) ==>
              DateIntervals.SeqWellFormed(IntervalsWhere(segs, keep))
  {
    if segs != [] {
      var init := segs[..|segs| - 1];
      var last := segs[|segs| - 1];
      IntervalsWhereSorted(init, keep);
      var ivs := IntervalsWhere(init, keep);
      forall iv | iv in ivs ensures iv.start <= last.startDate {
        var s :| s in init && keep(s) && IntervalOf(s) == iv;
        var k :| 0 <= k < |init| && init[k] == s;
      }
    }
  }

  /**
   * For segments in start order, each well formed, the total sleep duration is the length
   * of the union of the active segments: overlapping active stages are counted once.
   */
  lemma SortedTotalIsUnion(segs: seq<SleepStage>, fine: bool)
    requires SortedByStart(segs) && forall s :: s in segs ==> s.startDate <= s.endDate
    ensures TotalSleepDuration(segs, fine) == |DateIntervals.UnionCells(ActiveIntervals(segs, fine))|
    ensures TotalSleepDuration(segs, fine) >= 0
  {
    IntervalsWhereSorted(segs, (s: SleepStage) => IsActive(s, fine));
    DateIntervals.SortedTotalIsUnionLength(ActiveIntervals(segs, fine));
  }

  /**
   * The summary lists in-bed, awake, then each active stage, then the total; a stage row
   * is highlighted exactly when its stage is active, and no stage row is highlighted whole.
   */
  lemma SummaryLayout(segs: seq<SleepStage>, fine: bool)
    ensures var rows := SummaryValues(segs, fine);
      var stages := SummaryStages(fine);
      |rows| == |stages| + 1
      && (forall i :: 0 <= i < |stages| ==>
            rows[i].titleString == DisplayName(stages[i])
            && (rows[i].highlightValue <==> 2 <= i)
            && !rows[i].highlightAll)
      && rows[|stages|] == TotalRow(TotalSleepDuration(segs, fine))
  {
    var stages := SummaryStages(fine);
    var head := StageRows(segs, stages, fine);
    var rows := SummaryValues(segs, fine);
    assert rows == head + [TotalRow(TotalSleepDuration(segs, fine))];
    forall i | 0 <= i < |stages|
      ensures rows[i] == head[i]
      ensures stages[i] in ActiveSleepStages(fine) <==> 2 <= i
    {
      ActiveIndex(fine, i);
    }
  }

  lemma ActiveIndex(fine: bool, i: int)
    requires 0 <= i < |SummaryStages(fine)|
    ensures SummaryStages(fine)[i] in ActiveSleepStages(fine) <==> 2 <= i
  {
    var stages := SummaryStages(fine);
    if 2 <= i {
      assert stages[i] == stages[2..][i - 2];
    }
  }

  /**
   * The total row reads "noData" exactly when the total is under a minute (verbose text
   * shows no seconds, so that text is empty); otherwise it holds the verbose text.
   */
  lemma TotalRowNoData(total: int)
    ensures TotalRow(total).valueString == Some("noData") <==> total < 60
    ensures TotalRow(total).titleString == Some("Total sleep duration")
    ensures TotalRow(total).highlightAll && !TotalRow(total).highlightValue
    ensures total >= 60 ==> TotalRow(total).valueString == Some(Verbose(total))
  {
    var units := TimeFormat.VerboseUnits(total as real, false);
    var p := TimeFormat.ToHours(total as real);
    TimeFormat.VerboseEmptyIff(units);
    assert TimeFormat.Trunc(total as real) == total;
    assert units[0].value == p.hour && units[1].value == p.minutes;
    if total >= 60 {
      assert p.hour > 0 || p.minutes > 0;
      TimeFormat.HoursMinutesText(total as real);
      var text := Verbose(total);
      assert text != "" && text[0] != 'n' by {
        if p.hour > 0 {
          assert text[0] == TimeFormat.NatToString(p.hour)[0];
        } else {
          assert text[0] == TimeFormat.NatToString(p.minutes)[0];
        }
      }
    }
  }
}
