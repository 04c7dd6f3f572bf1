# RenaultHealth sleep pipeline, trip state and formula screen — a Dafny model

This project models the logic at the core of the RenaultHealth iOS app:

- **Total duration of overlapping intervals.** `DateIntervalCalculations.calculateTotalDuration` keeps a working set. Each new interval replaces every member it intersects with the union of the pair. The durations of the working set are then summed.
- **Sleep stages and their upload format.** `HKSleepProperties` holds the stage names and string ids. `HKSleepStage` and `HKSleepSegment` cover decoding from a JSON container, the upload dictionary, and the table row of a stage.
- **Sleep sessions.** `HKSleepSession` recomputes its start, end, total sleep, summary rows and display values from its segments. `HKSleepDataSource` groups segments into sessions and picks the longest and the last session.
- **Duration texts.** `TimeInterval.toHours`, `verboseTimeString` and `formattedTime` use Swift's truncating integer arithmetic.
- **Trips.** `Trip` computes a rest date one and a half times the last sleep after the start. `HealthDataViewModel` covers the trip-status state machine and the values it shows.
- **Formula test screen.** `LightFormulaParametrizedTestingViewModel` covers the input fallbacks, the sleep-history reset and the result line.

Conventions:

- Timestamps are integer seconds since the epoch.
- `TimeInterval` values the formatting code truncates are `real`. `Int(x)` is `TimeFormat.Trunc`. Swift's `/` and `%` are `TimeFormat.Quot` and `TimeFormat.Rem`, both rounding toward zero.
- `Date()` is a parameter `now`. The iOS 16 availability test is a parameter `fine`.
- A date formatter is a pair of functions, `DateCodec`. A Double's parser and its `description` are function parameters.
- `HKSleepSession`, `Trip`, `HealthDataViewModel` and `LightFormulaParametrizedTestingViewModel` are classes whose methods update their fields. The rest is functions over datatypes.

Modules:

- `DateIntervals` (date_intervals.dfy)
- `SleepProperties` (sleep_properties.dfy)
- `SleepStages` (sleep_stage.dfy)
- `SleepSessions` (sleep_session.dfy)
- `SleepDataSource` (sleep_data_source.dfy)
- `TimeFormat` (time_format.dfy)
- `Trips` (trip.dfy)
- `HealthData` (health_data_view_model.dfy)
- `LightFormulaTesting` (light_formula_view_model.dfy)
- `Wrappers` (wrappers.dfy)

Modelling decisions:

- **Intersection test.** It is the closed test `a.start <= b.end && b.start <= a.end`. This is the behaviour of Foundation's `DateInterval.intersects`, whose code is not part of this model.
- **The `.asleep` stage.** It is the same HealthKit value as `.asleepUnspecified`, so both are one constructor, `AsleepUnspecified`. The `.asleep` arm of `displayName` is therefore never reached.
- **Sorting.** Swift's `sorted` is modelled as a stable insertion sort. Ties in `longestSleepSession` and `lastSleepSession` resolve as that sort resolves them.

## Model

| member | source | states |
|---|---|---|
| DateIntervals.CalculateTotalDuration | RenaultHealth/Utilities/DateIntervalCalculations.swift:12-52 | The nested loops over a snapshot of the working set return the total of the reference definition `TotalDuration` (`MergeAll` then `Sum`). |
| DateIntervals.SumDurations | RenaultHealth/Utilities/DateIntervalCalculations.swift:48-51 | The final sum over the working set equals `Sum` of that set. |
| DateIntervals.Visit | RenaultHealth/Utilities/DateIntervalCalculations.swift:19-40 | Visiting one snapshot member replaces it by its union with the current interval exactly when they intersect. The intersect flag becomes true exactly when some visited member intersects. |
| DateIntervals.StepDone | RenaultHealth/Utilities/DateIntervalCalculations.swift:17-45 | After the snapshot is visited, and the interval is inserted when nothing intersected, the working set is the next `MergeAll` prefix. |
| DateIntervals.MergeAllSnoc | RenaultHealth/Utilities/DateIntervalCalculations.swift:17-46 | Processing one more interval applies one `Step` to the working set. |
| DateIntervals.EmptyAndSingle | RenaultHealth/Utilities/DateIntervalCalculations.swift:16-51 | Empty input gives 0. A single interval gives exactly its own duration. |
| DateIntervals.TwoIntersecting | RenaultHealth/Utilities/DateIntervalCalculations.swift:21-39 | Two intersecting intervals give the span from the lesser start to the greater end. |
| DateIntervals.DisjointInputsAddUp | RenaultHealth/Utilities/DateIntervalCalculations.swift:17-51 | When no two well-formed inputs intersect, the working set is the inputs themselves and the result is the plain sum of their durations. |
| DateIntervals.InputsContained | RenaultHealth/Utilities/DateIntervalCalculations.swift:17-45 | Every input interval lies inside some member of the final working set. |
| DateIntervals.NestedAddsNothing | RenaultHealth/Utilities/DateIntervalCalculations.swift:23-39 | An interval nested in an earlier input, a duplicate included, changes neither the working set nor the total, provided the working set is pairwise disjoint. The condition is needed: `NestedCanAddWhenOverlapping` shows a nested interval that raises the total. |
| DateIntervals.SumIsCoveredLength | RenaultHealth/Utilities/DateIntervalCalculations.swift:48-51 | Over a pairwise disjoint, well-formed set, the sum of durations is the number of seconds covered. |
| DateIntervals.SortedStep | RenaultHealth/Utilities/DateIntervalCalculations.swift:19-45 | For an interval starting no earlier than every member, one step keeps the working set pairwise disjoint and well formed. It adds exactly the new interval's seconds to what the set covers. |
| DateIntervals.SortedSingleHit | RenaultHealth/Utilities/DateIntervalCalculations.swift:21-39 | In that sorted situation at most one member is hit. It is replaced by the union, which meets no other member. |
| DateIntervals.SortedStepHit | RenaultHealth/Utilities/DateIntervalCalculations.swift:21-39 | The hit case of the sorted step: one removal and one insertion, with disjointness, well-formedness and coverage kept. |
| DateIntervals.SortedStepMiss | RenaultHealth/Utilities/DateIntervalCalculations.swift:43-45 | The miss case of the sorted step: the interval is inserted as is, with disjointness, well-formedness and coverage kept. |
| DateIntervals.CellsOfHull | RenaultHealth/Utilities/DateIntervalCalculations.swift:23-36 | The union of an intersecting pair covers exactly the seconds the two cover. |
| DateIntervals.SortedMergeCoversUnion | RenaultHealth/Utilities/DateIntervalCalculations.swift:17-45 | For input sorted by start, the working set stays pairwise disjoint and covers exactly the union of the inputs. |
| DateIntervals.SortedTotalIsUnionLength | RenaultHealth/Model/Entities/Sleep/HKSleepSession.swift:106-108 | For input sorted by start, overlaps are counted once: the result is the length of the union of the inputs. |
| DateIntervals.UnionAtMostSum | RenaultHealth/Utilities/DateIntervalCalculations.swift:48-51 | The union of well-formed intervals is never longer than their plain sum. |
| DateIntervals.MergeAllWellFormed | RenaultHealth/Utilities/DateIntervalCalculations.swift:33-39 | Well-formed inputs leave only well-formed members in the working set. |
| DateIntervals.SumNonNegative | RenaultHealth/Utilities/DateIntervalCalculations.swift:48-51 | The sum over well-formed intervals is not negative. |
| DateIntervals.TotalNonNegative | RenaultHealth/Utilities/DateIntervalCalculations.swift:48-51 | The result is not negative when every interval ends no earlier than it starts. |
| DateIntervals.UnsortedDoubleCount | RenaultHealth/Utilities/DateIntervalCalculations.swift:19-39 | For unsorted input `[0,2], [3,5], [1,4]` the working set ends as `{[0,4], [1,5]}` and the result is 8. That is more than the plain sum 7 and more than the length of the union. |
| DateIntervals.UnsortedWorkingSet | RenaultHealth/Utilities/DateIntervalCalculations.swift:19-39 | The working set for that input: each member is merged with the current interval, not with the union built so far. |
| DateIntervals.NestedCanAddWhenOverlapping | RenaultHealth/Utilities/DateIntervalCalculations.swift:19-39 | For inputs `[0,3], [8,20], [2,10]` the working set `{[0,10], [2,20]}` overlaps and totals 28. Adding `[1,3]`, which lies inside the input `[0,3]`, widens `[2,20]` to `[1,20]`, and the total becomes 29. |
| SleepProperties.AllStagesComplete | RenaultHealth/Model/Entities/Sleep/HKSleepProperties.swift:17-34 | Every stage value is among the six the switch handles. |
| SleepProperties.DisplayName | RenaultHealth/Model/Entities/Sleep/HKSleepProperties.swift:15-36 | A display name is always present and never empty. |
| SleepProperties.DisplayNamesDistinct | RenaultHealth/Model/Entities/Sleep/HKSleepProperties.swift:15-36 | No two stages share a display name. |
| SleepProperties.StringIds | RenaultHealth/Model/Entities/Sleep/HKSleepProperties.swift:39-55 | The table holds in bed, asleep and awake before iOS 16, and also core, deep and REM from iOS 16 on. Its ids are non-empty and pairwise distinct. |
| SleepProperties.TableSize | RenaultHealth/Model/Entities/Sleep/HKSleepProperties.swift:41-52 | The table has 3 entries before iOS 16 and 6 from iOS 16 on. |
| SleepProperties.UnspecifiedRenamed | RenaultHealth/Model/Entities/Sleep/HKSleepProperties.swift:43-48 | `.asleepUnspecified` has the id "asleep" before iOS 16 and "asleepUnspecified" from iOS 16 on. |
| SleepProperties.StringId | RenaultHealth/Model/Entities/Sleep/HKSleepProperties.swift:58-62 | The id is "" exactly for a stage absent from the table, and otherwise the table's entry. |
| SleepProperties.SleepSegmentType | RenaultHealth/Model/Entities/Sleep/HKSleepProperties.swift:65-73 | The lookup finds a stage exactly when some entry has that id. The stage found has that id, whatever the search order. |
| SleepProperties.IdRoundTrip | RenaultHealth/Model/Entities/Sleep/HKSleepProperties.swift:39-73 | Looking up the id of any stage in the table gives that stage back. |
| SleepProperties.UnknownIdIsNone | RenaultHealth/Model/Entities/Sleep/HKSleepProperties.swift:65-73 | An id that no entry has is not found. |
| SleepProperties.EmptyIdIsNone | RenaultHealth/Model/Entities/Sleep/HKSleepProperties.swift:65-73 | The empty id is not found. |
| SleepProperties.FineStagesAbsentBefore16 | RenaultHealth/Model/Entities/Sleep/HKSleepProperties.swift:39-62 | Core, deep and REM have the id "" before iOS 16 and a real id from iOS 16 on. |
| SleepStages.ReadString | RenaultHealth/Model/Entities/Sleep/HKSleepStage.swift:50 | Reading a key succeeds exactly when the key is present with a string value, and returns that string. Otherwise the error names the key. |
| SleepStages.ReadDate | RenaultHealth/Model/Entities/Sleep/HKSleepStage.swift:51-61 | A parseable text gives its wall-clock time less the zone offset. An unparseable one gives `now`. |
| SleepStages.StageFromId | RenaultHealth/Model/Entities/Sleep/HKSleepStage.swift:65-70 | A known id gives its stage. An unknown id gives `.asleepUnspecified`. |
| SleepStages.Decode | RenaultHealth/Model/Entities/Sleep/HKSleepStage.swift:47-71 | Decoding succeeds exactly when all three keys hold strings. A failure names one of the three keys. On success, the dates are read with the `now` fallback and the stage is never nil. |
| SleepStages.PayloadData | RenaultHealth/Model/Entities/Sleep/HKSleepSegment.swift:71-78 | "data" has exactly start_date, end_date and sleep_stage. The stage entry is the id of the stage, with a nil stage sent as `.asleepUnspecified`. |
| SleepStages.PayloadDictionary | RenaultHealth/Model/Entities/Sleep/HKSleepSegment.swift:58-89 | The payload has exactly "data" and "metadata". The metadata's startTime and endTime repeat the two date texts of the data. |
| SleepStages.PayloadRoundTrip | RenaultHealth/Model/Entities/Sleep/HKSleepSegment.swift:29-89 | The uploaded data always decodes. A stage in the id table comes back unchanged. Any other stage, such as core before iOS 16, comes back as `.asleepUnspecified`. Each date comes back shifted by the zone offset. |
| SleepStages.DatesRoundTripIffUtc | RenaultHealth/Model/Entities/Sleep/HKSleepSegment.swift:33-43 | A segment with a tabled stage decodes back to itself exactly when the zone offset is 0. Dates are written in UTC and read in the current zone. |
| SleepStages.TableValuesShape | RenaultHealth/Model/Entities/Sleep/HKSleepStage.swift:17-33 | The row title is the stage's display name, "Unspecified" for a nil stage; the "unknown" fallback is never used. The duration is the verbose text of end minus start. The row is never highlighted. |
| SleepStages.ComputeTableValues | RenaultHealth/Model/Entities/Sleep/HKSleepStage.swift:17-33 | Computing the row with the merge and the string loop gives `TableValues`. |
| SleepSessions.ActiveSleepStages | RenaultHealth/Model/Entities/Sleep/HKSleepSession.swift:44-55 | The active stages are the four asleep stages from iOS 16 on and `.asleep` before. In bed and awake are never active. |
| SleepSessions.MinStart | RenaultHealth/Model/Entities/Sleep/HKSleepSession.swift:79-84 | The least start of a non-empty list is one of its starts and no greater than any. |
| SleepSessions.MaxEnd | RenaultHealth/Model/Entities/Sleep/HKSleepSession.swift:96-101 | The greatest end of a non-empty list is one of its ends and no less than any. |
| SleepSessions.SessionBounds | RenaultHealth/Model/Entities/Sleep/HKSleepSession.swift:71-102 | A non-empty session starts at the least segment start and ends at the greatest segment end. An empty one starts and ends at `now`. |
| SleepSessions.IntervalsWhere | RenaultHealth/Model/Entities/Sleep/HKSleepSession.swift:112-125 | The filtered intervals are exactly the intervals of the accepted segments. |
| SleepSessions.SummaryStages | RenaultHealth/Model/Entities/Sleep/HKSleepSession.swift:168-174 | The summary lists in bed, then awake, then the active stages. |
| SleepSessions.StageRows | RenaultHealth/Model/Entities/Sleep/HKSleepSession.swift:177-183 | There is one row per listed stage, in order. |
| SleepSessions.StagesValues | RenaultHealth/Model/Entities/Sleep/HKSleepSession.swift:206 | There is one display row per segment, in segment order, each the segment's `TableValues`. |
| SleepSessions.SleepSession.constructor | RenaultHealth/Model/Entities/Sleep/HKSleepSession.swift:35-41 | A new session has no segments, no dates, total 0, no summary and the default display values. |
| SleepSessions.SleepSession.RefreshProperties | RenaultHealth/Model/Entities/Sleep/HKSleepSession.swift:60-66 | The segments are unchanged. Every aggregate field then agrees with a recomputation from the segments (`Refreshed`). |
| SleepSessions.SleepSession.CalculateStartingDate | RenaultHealth/Model/Entities/Sleep/HKSleepSession.swift:71-85 | Gives the session's starting date: the least start, or `now` when empty (see `SessionBounds`). |
| SleepSessions.SleepSession.CalculateEndDate | RenaultHealth/Model/Entities/Sleep/HKSleepSession.swift:88-102 | Gives the session's end date: the greatest end, or `now` when empty (see `SessionBounds`). |
| SleepSessions.SleepSession.CalculateTotalSleepDuration | RenaultHealth/Model/Entities/Sleep/HKSleepSession.swift:109-133 | Gives the merged duration of the active segments only. |
| SleepSessions.SleepSession.TotalDuration | RenaultHealth/Model/Entities/Sleep/HKSleepSession.swift:136-160 | Gives the merged duration of the segments of one stage. |
| SleepSessions.SleepSession.SetUpSummaryValues | RenaultHealth/Model/Entities/Sleep/HKSleepSession.swift:165-201 | Gives one row per summary stage followed by the total row. |
| SleepSessions.SleepSession.StageSummaryRows | RenaultHealth/Model/Entities/Sleep/HKSleepSession.swift:177-183 | The `compactMap` over the stages gives `StageRows`. |
| SleepSessions.SleepSession.SetUpDisplayValues | RenaultHealth/Model/Entities/Sleep/HKSleepSession.swift:203-210 | The display values hold the summary, one row per segment, the verbose total and the end date. |
| SleepSessions.ActiveStagesByPlatform | RenaultHealth/Model/Entities/Sleep/HKSleepSession.swift:44-55 | Only `.asleep` counts before iOS 16. Four stages count from iOS 16 on. |
| SleepSessions.EmptySession | RenaultHealth/Model/Entities/Sleep/HKSleepSession.swift:74-76 | An empty session starts and ends at `now` and has no sleep. |
| SleepSessions.IntervalsWhereSkip | RenaultHealth/Model/Entities/Sleep/HKSleepSession.swift:112-125 | A segment the filter rejects, inserted anywhere, leaves the interval list unchanged. |
| SleepSessions.InactiveSegmentAddsNothing | RenaultHealth/Model/Entities/Sleep/HKSleepSession.swift:109-132 | An in-bed, awake or nil-stage segment, inserted anywhere, does not change the total sleep duration. |
| SleepSessions.IntervalsWhereSorted | RenaultHealth/Model/Entities/Sleep/HKSleepSession.swift:112-125 | Filtering segments that are in start order keeps the intervals in start order and well formed. |
| SleepSessions.SortedTotalIsUnion | RenaultHealth/Model/Entities/Sleep/HKSleepSession.swift:106-108 | For well-formed segments in start order, the total sleep is the length of the union of the active segments: overlaps are counted once. It is not negative. |
| SleepSessions.SummaryLayout | RenaultHealth/Model/Entities/Sleep/HKSleepSession.swift:165-201 | The rows are in bed, awake, each active stage, then the total. A stage row is highlighted exactly when its stage is active. Only the last row is highlighted whole. |
| SleepSessions.TotalRowNoData | RenaultHealth/Model/Entities/Sleep/HKSleepSession.swift:186-198 | The total row reads "noData" exactly when the total is under a minute, and the verbose text otherwise. It is titled "Total sleep duration" and highlighted whole. |
| SleepDataSource.InsertByStart | RenaultHealth/Model/DataSources/HKSleepDataSource.swift:238-240 | Insertion adds exactly the one segment. |
| SleepDataSource.InsertKeepsSorted | RenaultHealth/Model/DataSources/HKSleepDataSource.swift:238-240 | Insertion keeps a list in start order. |
| SleepDataSource.SortByStart | RenaultHealth/Model/DataSources/HKSleepDataSource.swift:238-240 | The sort is a permutation of the segments. |
| SleepDataSource.SortSorts | RenaultHealth/Model/DataSources/HKSleepDataSource.swift:238-240 | The sort puts the segments in start order. |
| SleepDataSource.ArrangeIgnoresNow | RenaultHealth/Model/DataSources/HKSleepDataSource.swift:246-270 | The grouping does not depend on `now`. An empty current session takes the segment in either branch. |
| SleepDataSource.NoSegmentsNoSessions | RenaultHealth/Model/DataSources/HKSleepDataSource.swift:233-235 | Nil or empty input gives no sessions. |
| SleepDataSource.GroupsProperties | RenaultHealth/Model/DataSources/HKSleepDataSource.swift:246-276 | The sessions, one after another, are exactly the segments. No session is empty. Each segment starts within 360 s of the greatest end before it in its session. Each session starts more than 360 s after the previous one ends. |
| SleepDataSource.ArrangedIsSortedInput | RenaultHealth/Model/DataSources/HKSleepDataSource.swift:238-276 | The concatenated sessions are the input sorted by start: a permutation, nothing lost or duplicated. |
| SleepDataSource.ArrangedSessions | RenaultHealth/Model/DataSources/HKSleepDataSource.swift:246-276 | Every returned session is non-empty, in start order, and cohesive within the threshold. Consecutive sessions are separated by more than the threshold. |
| SleepDataSource.ArrangedTotalsAreUnions | RenaultHealth/Model/DataSources/HKSleepDataSource.swift:248 | In every returned session of well-formed segments, the total sleep is the union length of its active segments. |
| SleepDataSource.PlaceSegment | RenaultHealth/Model/DataSources/HKSleepDataSource.swift:255-270 | Past the threshold, the current session is appended when non-empty and a new one begun. The segment then joins the current session, as `ArrangeStep` says. |
| SleepDataSource.Visit | RenaultHealth/Model/DataSources/HKSleepDataSource.swift:246-271 | One pass of the loop performs `ArrangeStep`. Appended sessions hold their groups and are refreshed. |
| SleepDataSource.ArrangeSorted | RenaultHealth/Model/DataSources/HKSleepDataSource.swift:243-278 | The loop returns new, distinct, refreshed sessions holding exactly the groups of `ArrangeFrom`. |
| SleepDataSource.Finish | RenaultHealth/Model/DataSources/HKSleepDataSource.swift:273-276 | After the loop, the current session is refreshed and appended when non-empty. |
| SleepDataSource.ArrangeSleepSessions | RenaultHealth/Model/DataSources/HKSleepDataSource.swift:229-279 | Gives one new, refreshed session per group of `ArrangedSegments`, in order, all distinct. |
| SleepDataSource.LongestSleepSession | RenaultHealth/Model/DataSources/HKSleepDataSource.swift:283-292 | The result is None exactly for no sessions. Otherwise it is one of the sessions, with the greatest total sleep. |
| SleepDataSource.LastSleepSession | RenaultHealth/Model/DataSources/HKSleepDataSource.swift:294-316 | As written: None exactly for no sessions, otherwise a session with the earliest end date. |
| SleepDataSource.MostRecentSleepSession | RenaultHealth/Model/DataSources/HKSleepDataSource.swift:302-304 | The corrected selection: None exactly for no sessions, otherwise a session with the latest end date. |
| SleepDataSource.LastSleepSessionPicksEarliest | RenaultHealth/Model/DataSources/HKSleepDataSource.swift:302-311 | Given sessions ending at 100 and 200, `lastSleepSession` returns the one ending at 100. The most recent one is the other. |
| TimeFormat.Trunc | RenaultHealth/Utilities/Extensions/Numeric/TimeInterval+Extensions.swift:63 | `Int(x)` is the integer part of `x`, rounded toward zero. |
| TimeFormat.Quot | RenaultHealth/Utilities/Extensions/Numeric/TimeInterval+Extensions.swift:66-69 | Swift's `/` agrees with floor division for non-negative dividends and never has the wrong sign. |
| TimeFormat.Rem | RenaultHealth/Utilities/Extensions/Numeric/TimeInterval+Extensions.swift:66-69 | Swift's `%` completes the quotient to the dividend and takes the dividend's sign. |
| TimeFormat.NatToStringRoundTrip | RenaultHealth/Utilities/Extensions/Numeric/TimeInterval+Extensions.swift:48 | The decimal text of a count reads back as that count. |
| TimeFormat.IntToStringRoundTrip | RenaultHealth/Utilities/Extensions/Numeric/TimeInterval+Extensions.swift:48 | The text of any Int, with its minus sign, reads back as that Int. |
| TimeFormat.LabelSingularIff | RenaultHealth/Utilities/Extensions/Numeric/TimeInterval+Extensions.swift:46-50 | A singular label is used exactly when the value is 1. |
| TimeFormat.ToHours | RenaultHealth/Utilities/Extensions/Numeric/TimeInterval+Extensions.swift:56-71 | Hours, minutes and seconds add back to the whole seconds. For t >= 0, minutes and seconds lie in [0, 60). For t < 0, every part is non-positive. |
| TimeFormat.VerboseUnits | RenaultHealth/Utilities/Extensions/Numeric/TimeInterval+Extensions.swift:17-38 | Gives hours and minutes, then seconds only when `includeSeconds` is set. |
| TimeFormat.VerboseTimeString | RenaultHealth/Utilities/Extensions/Numeric/TimeInterval+Extensions.swift:12-54 | The string loop gives `VerboseText` of the units. |
| TimeFormat.VerboseEmptyIff | RenaultHealth/Utilities/Extensions/Numeric/TimeInterval+Extensions.swift:40-53 | The answer is "" exactly when no listed unit is positive. |
| TimeFormat.HoursMinutesText | RenaultHealth/Utilities/Extensions/Numeric/TimeInterval+Extensions.swift:40-53 | Without seconds, the text is the hours label plus a space when there are hours, then the minutes label when there are minutes. Seconds never appear. |
| TimeFormat.HoursMinutesSecondsText | RenaultHealth/Utilities/Extensions/Numeric/TimeInterval+Extensions.swift:30-53 | With seconds, the seconds label follows the hours-and-minutes text, after a space when that text is non-empty. |
| TimeFormat.WholeSecondsVerbose | RenaultHealth/Utilities/Extensions/Numeric/TimeInterval+Extensions.swift:12-54 | For whole seconds, the verbose text equals an integer closed form. |
| TimeFormat.TrailingSpaceQuirk | RenaultHealth/Utilities/Extensions/Numeric/TimeInterval+Extensions.swift:41-51 | 7200 s gives "2 Hrs " with a trailing space. 300 s gives "5 Mins". |
| TimeFormat.DecomposeSplits | RenaultHealth/Utilities/Extensions/Numeric/TimeInterval+Extensions.swift:74-83 | For t >= 0: days·86400 + hours·3600 + minutes·60 + seconds = t, with hours < 24 and minutes and seconds < 60, all non-negative. |
| TimeFormat.DecomposeNegative | RenaultHealth/Utilities/Extensions/Numeric/TimeInterval+Extensions.swift:74-83 | For negative time every count is non-positive. |
| TimeFormat.PositiveLabels | RenaultHealth/Utilities/Extensions/Numeric/TimeInterval+Extensions.swift:85-98 | Only positive units get a label, and no label is empty. |
| TimeFormat.PositiveLabelsOfFour | RenaultHealth/Utilities/Extensions/Numeric/TimeInterval+Extensions.swift:85-98 | The components are the labels of days, hours, minutes and seconds, in that order, each only when positive. |
| TimeFormat.PositiveLabelsEmptyIff | RenaultHealth/Utilities/Extensions/Numeric/TimeInterval+Extensions.swift:85-98 | There are no components exactly when no unit is positive. |
| TimeFormat.Join | RenaultHealth/Utilities/Extensions/Numeric/TimeInterval+Extensions.swift:100 | One part joins to itself. Non-empty parts join to "" exactly when there are none. |
| TimeFormat.FormattedTime | RenaultHealth/Utilities/Extensions/Numeric/TimeInterval+Extensions.swift:73-101 | The string loop gives the positive labels of the day split, joined by single spaces. |
| TimeFormat.FormattedEmptyIff | RenaultHealth/Utilities/Extensions/Numeric/TimeInterval+Extensions.swift:73-101 | `formattedTime` is "" exactly when the whole seconds are not positive. |
| Trips.Trip.constructor | RenaultHealth/Model/Trip/Trip.swift:12-18 | A new trip has no start, no session and interval 0, so it has no rest date. |
| Trips.Trip.RestDate | RenaultHealth/Model/Trip/Trip.swift:16-18 | The rest date is present exactly when the start date is, and lies the interval after it. |
| Trips.Trip.Start | RenaultHealth/Model/Trip/Trip.swift:20-25 | Overwrites the start and the session. The guard passes, so the interval is 1.5 times the session's sleep and the rest date is start plus that. The rest date is not before the start when the sleep is not negative. |
| Trips.Trip.CalculateRestInterval | RenaultHealth/Model/Trip/Trip.swift:27-37 | With both a start and a session, the interval becomes 1.5 times the sleep. Otherwise nothing changes. |
| Trips.SleepNotNegative | RenaultHealth/Model/Entities/Sleep/HKSleepSession.swift:109-133 | Segments that end no earlier than they start sleep a non-negative time. |
| HealthData.DisplayDistinguishesStatus | RenaultHealth/Views/HealthDataViewModel.swift:117-137 | Each of the four shown values, both texts and both colours, is equal for two statuses exactly when the statuses are equal. |
| HealthData.NextStatus | RenaultHealth/Views/HealthDataViewModel.swift:53-115 | The button, elapsed-time and rest events set the status to their target. Every other event keeps it. |
| HealthData.UnsteeredKeepsStatus | RenaultHealth/Views/HealthDataViewModel.swift:53-99 | A run of non-steering events leaves the status as it was. |
| HealthData.LastSteerDecides | RenaultHealth/Views/HealthDataViewModel.swift:66-115 | After any run of events, the status is the target of the last steering event. |
| HealthData.RunningNeedsElapsed | RenaultHealth/Views/HealthDataViewModel.swift:66-70 | From no trip, the trip is running exactly when some elapsed-time report has no button press or rest report after it. |
| HealthData.HealthDataViewModel.constructor | RenaultHealth/Views/HealthDataViewModel.swift:25-39 | Starts refreshing with no trip, zero times, no error and nothing asked of the provider. The screen shows a new trip. |
| HealthData.HealthDataViewModel.ToggleTrip | RenaultHealth/Views/HealthDataViewModel.swift:102-115 | With no trip: records the start date, asks to start and keeps the status None. Otherwise: asks to stop, sets None and zeroes both times. `restNow` and `canStartTrip` are untouched, and the display matches the status. |
| HealthData.HealthDataViewModel.OnTripTimeBeforeRest | RenaultHealth/Views/HealthDataViewModel.swift:53-63 | A zero time disables starting and keeps the stored time. Any other time enables starting and is stored. Nothing else changes. |
| HealthData.HealthDataViewModel.OnTripElapsedTime | RenaultHealth/Views/HealthDataViewModel.swift:66-72 | Stores the time and sets Running from any status. The display matches; nothing else changes. |
| HealthData.HealthDataViewModel.OnRestNow | RenaultHealth/Views/HealthDataViewModel.swift:74-80 | Raises `restNow` and sets Completed. The display matches; nothing else changes. |
| HealthData.HealthDataViewModel.OnError | RenaultHealth/Views/HealthDataViewModel.swift:82-87 | Stores the error and changes nothing else. |
| HealthData.HealthDataViewModel.RefreshTripTime | RenaultHealth/Views/HealthDataViewModel.swift:91-93 | Sets refreshing and clears the error before the deferred part. Nothing else changes. |
| HealthData.HealthDataViewModel.FinishTripTimeRefresh | RenaultHealth/Views/HealthDataViewModel.swift:95-98 | The deferred part asks the provider for the trip time and stops refreshing. Nothing else changes. |
| HealthData.HealthDataViewModel.RefreshTripPublishedValues | RenaultHealth/Views/HealthDataViewModel.swift:117-137 | Shows the fixed texts and colours of the current status and touches nothing else. |
| LightFormulaTesting.IntFromText | RenaultHealth/Views/LightFormulaParametrizedTestingView/LightFormulaParametrizedTestingViewModel.swift:126 | A parsed Int lies in the 64-bit range. Empty text does not parse. |
| LightFormulaTesting.IntTextRoundTrip | RenaultHealth/Views/LightFormulaParametrizedTestingView/LightFormulaParametrizedTestingViewModel.swift:126 | Every 64-bit Int's own text parses back to it. |
| LightFormulaTesting.WakeUpHour | RenaultHealth/Views/LightFormulaParametrizedTestingView/LightFormulaParametrizedTestingViewModel.swift:126 | The wake-up hour is the parsed Int, or 7 when the text is not an Int. |
| LightFormulaTesting.WakeUpFallback | RenaultHealth/Views/LightFormulaParametrizedTestingView/LightFormulaParametrizedTestingViewModel.swift:126 | An empty field, or one not starting with a sign or digit, counts as 7. |
| LightFormulaTesting.DoubleOrZero | RenaultHealth/Views/LightFormulaParametrizedTestingView/LightFormulaParametrizedTestingViewModel.swift:115-123 | A parameter is the parsed Double, or 0 when it does not parse. |
| LightFormulaTesting.SleepHistory | RenaultHealth/Views/LightFormulaParametrizedTestingView/LightFormulaParametrizedTestingViewModel.swift:127-129 | There is one number per history entry, in order, 0 for an entry that does not parse. |
| LightFormulaTesting.SecondsToHoursMinutesSeconds | RenaultHealth/Views/LightFormulaParametrizedTestingView/LightFormulaParametrizedTestingViewModel.swift:143-145 | The parts add back to the seconds. For n >= 0, minutes and seconds lie in [0, 60). For n <= 0, every part is non-positive. |
| LightFormulaTesting.SplitAgreesWithToHours | RenaultHealth/Views/LightFormulaParametrizedTestingView/LightFormulaParametrizedTestingViewModel.swift:143-145 | The duplicate split agrees with `toHours` on the whole seconds of any time, negative ones included. |
| LightFormulaTesting.ResultShowsWholeMinutes | RenaultHealth/Views/LightFormulaParametrizedTestingView/LightFormulaParametrizedTestingViewModel.swift:139-140 | For a non-negative result the line reads "h Hours, m Minutes" with the whole hours and the whole minutes left over; seconds are dropped. |
| LightFormulaTesting.HoursAwakeNotClamped | RenaultHealth/Views/LightFormulaParametrizedTestingView/LightFormulaParametrizedTestingViewModel.swift:132-136 | Before the default wake-up hour, hours awake is negative; at 5 o'clock it is -2. |
| LightFormulaTesting.LightFormulaViewModel.constructor | RenaultHealth/Views/LightFormulaParametrizedTestingView/LightFormulaParametrizedTestingViewModel.swift:26-43 | The parameter fields are empty, the wake-up hour is "7", the history is seven entries of "8" and there is no result. |
| LightFormulaTesting.LightFormulaViewModel.ResetAllSleepHistoryTo | RenaultHealth/Views/LightFormulaParametrizedTestingView/LightFormulaParametrizedTestingViewModel.swift:78-83 | The history keeps its length and every entry becomes the text of the value. Nothing else changes. |
| LightFormulaTesting.LightFormulaViewModel.ResetSleepHistory | RenaultHealth/Views/LightFormulaParametrizedTestingView/LightFormulaParametrizedTestingViewModel.swift:74-76 | Every entry becomes the text of 8, with the length kept. Nothing else changes. |
| LightFormulaTesting.LightFormulaViewModel.Inputs | RenaultHealth/Views/LightFormulaParametrizedTestingView/LightFormulaParametrizedTestingViewModel.swift:115-137 | Each parameter and each history entry is its parse or 0. Hours awake plus the wake-up hour is the current hour, with no clamp. |
| LightFormulaTesting.LightFormulaViewModel.CalculateLightFormula | RenaultHealth/Views/LightFormulaParametrizedTestingView/LightFormulaParametrizedTestingViewModel.swift:113-141 | The result line is the text of the formula applied to the inputs. The fields it reads are unchanged. |

## Left out

- HealthKit I/O is not modelled. This covers `HKQueryManager`, `HKAuthorizationManager`, `HKHeartDataSource`, the `fetch*` methods of `HKSleepDataSource` and their callbacks, and `requestHKPermission`; these are device queries and permissions.
- SwiftUI views, styles, components and colour extensions are not modelled: they are presentation only. Colours are the tags of `HealthData.Color`.
- Date+Extensions.swift is not part of this model. Date texts are kept as the instants they show, and date parsing and rendering are the parameters of `DateCodec`. Time zones are one fixed offset, so daylight saving is not modelled.
- The light formula, `LightFormulaParameters`, `TripDurationCalculator` and `HealthDataProvider` are not part of this model. The formula is a function parameter, and the provider is the log of requests made of it.
- `resetConstants`, `resetSleepVars` and `resetAllValues` are not modelled: they copy the defaults of `LightFormulaParameters`, which is not part of this model.
- Combine subscriptions and `DispatchQueue` scheduling are not modelled. Each handler is a method, and `refreshTripTime` is split into its immediate part and its deferred part. The random delay and any interleaving are not captured.
- The `print` calls in the handlers and in `lastSleepSession` are not modelled: they are logging only.
- The `ms` field of `toHours` is not modelled: it is a floating-point remainder.
- Durations are not Doubles. Dates are whole seconds, so merged durations are integers. The 1.5 factor of `Trip` and the formula's result are `real`, with no rounding.
- LightFormulaTesting.LightFormulaViewModel.CalculateLightFormula: `Int(res)` traps on NaN or an out-of-range Double; the model truncates any real.
- LightFormulaTesting.LightFormulaViewModel.Inputs: `currentTime - wakeUpHour` is a 64-bit Swift subtraction and traps on overflow, for example when the wake-up text is "-9223372036854775808" and the current hour is 0 or more. The model does not trap: it returns the unbounded difference as hours awake.
- TimeFormat.Trunc: `NSInteger(self)` in `toHours` and `Int(self)` in `formattedTime` trap on NaN, an infinite value, or a Double outside the 64-bit range, such as 1e19 seconds. `Trunc` accepts every real, so TimeFormat.ToHours and TimeFormat.FormattedTime have no trap case.
- LightFormulaTesting.LightFormulaViewModel.ResetAllSleepHistoryTo: the text of a Double (`"\(value)"`, which renders 8 as "8.0") is the parameter `describe`. The model does not fix that rendering.
- The parsers for Double fields are parameters. `Int(text)` is modelled (sign, digits, 64-bit range).
- The `<-` decoding operator is not part of this model. It is taken to succeed exactly when the key holds a string.
- `DateInterval(start:end:)` traps when the end precedes the start. The model allows any pair, and properties that need well-formed intervals require them.
- The `@unknown default` arm of `displayName` is not modelled: the stage type has only the six known values.
- SleepDataSource.LastSleepSession: `Date()` is read once, as `now`, not once per comparison.
- SleepSessions.EmptySession, SleepSessions.SessionBounds and SleepStages.Decode: each `Date()` call reads the clock separately, but the model reads it once, as `now`. These are the start and end of an empty session and the two date fallbacks of decoding. So an empty session starting and ending at the same instant, and a decoded stage with two unreadable dates having start equal to end, hold only in the model. In the app the two readings may differ slightly.
- Swift's `sorted` is modelled as a stable sort. Where the source relies on no order between equal keys, the model fixes one.
- `segments.sorted` in `calculateStartingDate` and `calculateEndDate` is modelled by its result, the least start and the greatest end, not as a sort.

## Findings

| source | as written | input that shows it | evidently intended | confidence | as-written member | corrected member |
|---|---|---|---|---|---|---|
| RenaultHealth/Model/DataSources/HKSleepDataSource.swift:302-311 | Sorts by end date, latest first, then takes `.last`, which is the session that ended EARLIEST. | Two sessions ending at 100 and 200: the one ending at 100 is returned. | The most recent session, the head of that sort. The SDK copy of this function in `Model/SDk /HKSleepDataSource.swift` takes `.first`. | not executed | SleepDataSource.LastSleepSession, shown by SleepDataSource.LastSleepSessionPicksEarliest | SleepDataSource.MostRecentSleepSession |
