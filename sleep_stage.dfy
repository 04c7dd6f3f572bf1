/**
 * A sleep stage between two instants (HKSleepStage, and HKSleepSegment, which has the
 * same fields and the same decoder), its decoding from the server's JSON, the payload it
 * is uploaded as, and the row it is shown as.
 *
 * Instants are whole seconds since the epoch. Date text uses the pattern
 * "yyyy-MM-dd'T'HH:mm:ss'Z'", in which the 'Z' is a literal letter, not a zone. The
 * formatter is a pair of functions on wall-clock seconds (`DateCodec`); the zone is a
 * fixed offset in seconds east of UTC. Text is written on a UTC clock and read back on
 * the device's clock, so the text for wall-clock time w is read as the instant w - offset.
 */
module SleepStages {
  import opened Wrappers
  import opened SleepProperties
  import DateIntervals
  import TimeFormat

  /** A JSON value, as far as the decoders look at it. */
  datatype Json = JString(text: string) | JObject(fields: map<string, Json>) | JOther

  /** HKSleepStage and HKSleepSegment. The memberwise init is the constructor. */
  datatype SleepStage = SleepStage(startDate: int, endDate: int, sleepAnalysis: Option<Stage>)

  /** The error thrown when a key cannot be read as a string. */
  datatype DecodeError = UnreadableKey(key: string)

  /** Wall-clock text of a time and its parse. */
  datatype DateCodec = DateCodec(render: int -> string, parse: string -> Option<int>)

  /** The parser reads back every text the renderer writes. */
  ghost predicate ReadsBack(codec: DateCodec) {
    forall w :: codec.parse(codec.render(w)) == Some(w)
  }

  /** `try key <- container` with a String result. */
  function ReadString(container: map<string, Json>, key: string): (r: Result<string, DecodeError>)
    ensures r.Success? <==> key in container && container[key].JString?
    ensures r.Success? ==> container[key] == JString(r.value)
    ensures r.Failure? ==> r.error == UnreadableKey(key)
  {
    if key in container && container[key].JString? then Success(container[key].text)
    else Failure(UnreadableKey(key))
  }

  /** `stringToDate(format:timeZone: .current) ?? Date()`. */
  function ReadDate(text: string, codec: DateCodec, zoneOffset: int, now: int): (t: int)
    ensures codec.parse(text).Some? ==> t == codec.parse(text).value - zoneOffset
    ensures codec.parse(text).None? ==> t == now
  {
    match codec.parse(text)
    case Some(wall) => wall - zoneOffset
    case None => now
  }

  /** The stage named by an id, falling back to `.asleepUnspecified` for an unknown id. */
  function StageFromId(id: string, fine: bool): (s: Stage)
    ensures SleepSegmentType(id, fine).Some? ==> s == SleepSegmentType(id, fine).value
    ensures SleepSegmentType(id, fine).None? ==> s == AsleepUnspecified
  {
    SleepSegmentType(id, fine).GetOr(AsleepUnspecified)
  }

  /**
   * `init(container:)`: reads "start_date", "end_date" and "sleep_stage" in that order and
   * fails on the first that is missing or not a string. An unparseable date becomes `now`;
   * an unknown stage id becomes `.asleepUnspecified`, so a decoded stage is never nil.
   */
  function Decode(container: map<string, Json>, codec: DateCodec, zoneOffset: int, now: int, fine: bool)
    : (r: Result<SleepStage, DecodeError>)
    ensures r.Success? <==> forall k :: k in {"start_date", "end_date", "sleep_stage"} ==>
                              k in container && container[k].JString?
    ensures r.Failure? ==> r.error.key in {"start_date", "end_date", "sleep_stage"}
    ensures r.Success? ==>
              r.value.startDate == ReadDate(container["start_date"].text, codec, zoneOffset, now)
              && r.value.endDate == ReadDate(container["end_date"].text, codec, zoneOffset, now)
              && r.value.sleepAnalysis == Some(StageFromId(container["sleep_stage"].text, fine))
  {
    var startText := ReadString(container, "start_date");
    if startText.Failure? then Failure(startText.error) else
    var endText := ReadString(container, "end_date");
    if endText.Failure? then Failure(endText.error) else
    var stageText := ReadString(container, "sleep_stage");
    if stageText.Failure? then Failure(stageText.error) else
    Success(SleepStage(ReadDate(startText.value, codec, zoneOffset, now),
                       ReadDate(endText.value, codec, zoneOffset, now),
                       Some(StageFromId(stageText.value, fine))))
  }

  /** The "data" dictionary of the payload. */
  function PayloadData(seg: SleepStage, codec: DateCodec, fine: bool): (data: map<string, Json>)
    ensures data.Keys == {"start_date", "end_date", "sleep_stage"}
    ensures data["start_date"] == JString(codec.render(seg.startDate))
    ensures data["end_date"] == JString(codec.render(seg.endDate))
    ensures data["sleep_stage"] == JString(StringId(seg.sleepAnalysis.GetOr(AsleepUnspecified), fine))
  {
    map["start_date" := JString(codec.render(seg.startDate)),
        "end_date" := JString(codec.render(seg.endDate)),
        "sleep_stage" := JString(StringId(seg.sleepAnalysis.GetOr(AsleepUnspecified), fine))]
  }

  /**
   * `payloadDictionary()`: exactly "data" and "metadata"; the metadata repeats the two date
   * texts of the data under "startTime" and "endTime". Dates are written on a UTC clock.
   */
  function PayloadDictionary(seg: SleepStage, codec: DateCodec, fine: bool): (payload: map<string, Json>)
    ensures payload.Keys == {"data", "metadata"}
    ensures payload["data"] == JObject(PayloadData(seg, codec, fine))
    ensures payload["metadata"].JObject?
    ensures payload["metadata"].fields.Keys == {"startTime", "endTime"}
    ensures payload["metadata"].fields["startTime"] == PayloadData(seg, codec, fine)["start_date"]
    ensures payload["metadata"].fields["endTime"] == PayloadData(seg, codec, fine)["end_date"]
  {
    var data := PayloadData(seg, codec, fine);
    var metadata := map["startTime" := data["start_date"], "endTime" := data["end_date"]];
    assert metadata.Keys == {"startTime", "endTime"};
    map["data" := JObject(data), "metadata" := JObject(metadata)]
  }

  /**
   * Decoding the uploaded data always succeeds. The stage comes back when it has an id on
   * this platform (a nil stage comes back as `.asleepUnspecified`); any other stage, such
   * as core sleep before iOS 16, is uploaded as "" and comes back as `.asleepUnspecified`.
   * Each date comes back shifted by the zone offset.
   */
  lemma {:induction false} PayloadRoundTrip(seg: SleepStage, codec: DateCodec, zoneOffset: int, now: int, fine: bool)
    requires ReadsBack(codec)
    ensures var r := Decode(PayloadData(seg, codec, fine), codec, zoneOffset, now, fine);
      r.Success?
      && r.value.startDate == seg.startDate - zoneOffset
      && r.value.endDate == seg.endDate - zoneOffset
      && (seg.sleepAnalysis.GetOr(AsleepUnspecified) in StringIds(fine) ==>
            r.value.sleepAnalysis == Some(seg.sleepAnalysis.GetOr(AsleepUnspecified)))
      && (seg.sleepAnalysis.GetOr(AsleepUnspecified) !in StringIds(fine) ==>
            r.value.sleepAnalysis == Some(AsleepUnspecified))
  {
    var s := seg.sleepAnalysis.GetOr(AsleepUnspecified);
    PayloadDecodes(seg, codec, zoneOffset, now, fine);
    if s in StringIds(fine) {
      IdRoundTrip(s, fine);
    } else {
      EmptyIdIsNone(fine);
    }
  }

  /** The uploaded data decodes; the dates come back shifted and the stage through its id. */
  lemma PayloadDecodes(seg: SleepStage, codec: DateCodec, zoneOffset: int, now: int, fine: bool)
    requires ReadsBack(codec)
    ensures var r := Decode(PayloadData(seg, codec, fine), codec, zoneOffset, now, fine);
      r.Success?
      && r.value.startDate == seg.startDate - zoneOffset
      && r.value.endDate == seg.endDate - zoneOffset
      && r.value.sleepAnalysis == Some(StageFromId(StringId(seg.sleepAnalysis.GetOr(AsleepUnspecified), fine), fine))
  {
    var data := PayloadData(seg, codec, fine);
    assert codec.parse(codec.render(seg.startDate)) == Some(seg.startDate);
    assert codec.parse(codec.render(seg.endDate)) == Some(seg.endDate);
    assert ReadDate(data["start_date"].text, codec, zoneOffset, now) == seg.startDate - zoneOffset;
    assert ReadDate(data["end_date"].text, codec, zoneOffset, now) == seg.endDate - zoneOffset;
  }

  /** The uploaded data decodes to the very segment exactly when the device clock is on UTC. */
  lemma DatesRoundTripIffUtc(seg: SleepStage, codec: DateCodec, zoneOffset: int, now: int, fine: bool)
    requires ReadsBack(codec)
    requires seg.sleepAnalysis.Some? && seg.sleepAnalysis.value in StringIds(fine)
    ensures Decode(PayloadData(seg, codec, fine), codec, zoneOffset, now, fine) == Success(seg)
            <==> zoneOffset == 0
  {
    PayloadRoundTrip(seg, codec, zoneOffset, now, fine);
  }

  /** SleepStageDisplayValues; the two date texts are kept as the instants they show. */
  datatype StageDisplayValues = StageDisplayValues(title: string, start: int, end: int, duration: string, highlight: bool)

  /** `tableValues`: the row shown for one stage. */
  ghost function TableValues(s: SleepStage): StageDisplayValues {
    var iv := DateIntervals.Interval(s.startDate, s.endDate);
    StageDisplayValues(
      DisplayName(s.sleepAnalysis.GetOr(AsleepUnspecified)).GetOr("unknown"),
      s.startDate, s.endDate,
      TimeFormat.HoursMinutesVerbose(DateIntervals.TotalDuration([iv])),
      false)
  }

  /**
   * The title is the display name of the stage, "Unspecified" for a nil stage (the
   * "unknown" fallback is never taken); the duration is the verbose text of end - start
   * in whole seconds (`WholeSecondsVerbose`), the total of the one-interval list; the row
   * is never highlighted.
   */
  lemma TableValuesShape(s: SleepStage)
    ensures var v := TableValues(s);
      && v.title == DisplayName(s.sleepAnalysis.GetOr(AsleepUnspecified)).value
      && (s.sleepAnalysis.None? ==> v.title == "Unspecified")
      && v.duration == TimeFormat.HoursMinutesVerbose(s.endDate - s.startDate)
      && v.start == s.startDate && v.end == s.endDate && !v.highlight
  {
    DateIntervals.EmptyAndSingle(DateIntervals.Interval(s.startDate, s.endDate));
  }

  method ComputeTableValues(s: SleepStage) returns (v: StageDisplayValues)
    ensures v == TableValues(s)
  {
    var total := DateIntervals.CalculateTotalDuration([DateIntervals.Interval(s.startDate, s.endDate)]);
    var duration := TimeFormat.VerboseTimeString(total as real, false);
    TimeFormat.WholeSecondsVerbose(total);
    v := StageDisplayValues(
      DisplayName(s.sleepAnalysis.GetOr(AsleepUnspecified)).GetOr("unknown"),
      s.startDate, s.endDate, duration, false);
  }
}
