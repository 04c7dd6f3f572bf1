/**
 * The screen for trying out the light formula with hand-typed parameters
 * (LightFormulaParametrizedTestingViewModel): the text fields, the sleep history, the
 * fallbacks used when a field does not parse, and the text the result is shown as.
 *
 * The light formula itself is not part of this model: it is the parameter `formula`, a
 * function from its inputs to a number of seconds. `Double(text)` is the parameter
 * `parseDouble` and `"\(value)"` for a Double is the parameter `describe`; the hour of
 * `Date()` is the parameter `currentHour`.
 */
module LightFormulaTesting {
  import opened Wrappers
  import opened TimeFormat

  /** The formula's parameters, in the order the screen lists them. */
  datatype Parameters = Parameters(
    decayConstant: real, lowAsymptote: real, decayConstantDriving: real,
    initialSleepPressure: real, circadianAmplitude: real, circadianAcrophase: real,
    maxSafetyTime: real)

  /** The arguments `calculateSafeDrivingTime` is called with. */
  datatype FormulaInputs = FormulaInputs(parameters: Parameters, lastSleepHours: seq<real>, hoursAwake: int, currentHour: int)

  const MinInt: int := -0x8000_0000_0000_0000
  const MaxInt: int := 0x7FFF_FFFF_FFFF_FFFF

  /**
   * `Int(text)`: an optional '+' or '-', then one or more decimal digits, denoting a value
   * that fits a 64-bit Int; anything else is nil.
   */
  function IntFromText(text: string): (r: Option<int>)
    ensures r.Some? ==> MinInt <= r.value <= MaxInt
    ensures text == [] ==> r.None?
  {
    var signed := |text| >= 1 && (text[0] == '+' || text[0] == '-');
    var digits := if signed then text[1..] else text;
    if digits == [] || !IsDigits(digits) then None
    else
      var v := if signed && text[0] == '-' then -(DecimalValue(digits) as int) else DecimalValue(digits);
      if MinInt <= v <= MaxInt then Some(v) else None
  }

  /** Every Int's own text reads back as that Int. */
  lemma IntTextRoundTrip(i: int)
    requires MinInt <= i <= MaxInt
    ensures IntFromText(IntToString(i)) == Some(i)
  {
    var s := IntToString(i);
    IntToStringRoundTrip(i);
    if i < 0 {
      assert s[1..] == NatToString(-i);
    } else {
      assert IsDigits(s);
    }
  }

  /** The wake-up hour typed in, or 7 when it is not an Int. */
  function WakeUpHour(text: string): (h: int)
    ensures IntFromText(text).Some? ==> h == IntFromText(text).value
    ensures IntFromText(text).None? ==> h == 7
  {
    IntFromText(text).GetOr(7)
  }

  /** A typed-in Double, or 0 when it does not parse. */
  function DoubleOrZero(text: string, parseDouble: string -> Option<real>): (x: real)
    ensures parseDouble(text).Some? ==> x == parseDouble(text).value
    ensures parseDouble(text).None? ==> x == 0.0
  {
    parseDouble(text).GetOr(0.0)
  }

  /** The sleep history as numbers: one per entry, in order, 0 for an entry that does not parse. */
  function SleepHistory(durations: seq<string>, parseDouble: string -> Option<real>): (hours: seq<real>)
    ensures |hours| == |durations|
    ensures forall i :: 0 <= i < |durations| ==> hours[i] == DoubleOrZero(durations[i], parseDouble)
  {
    if durations == [] then []
    else SleepHistory(durations[..|durations| - 1], parseDouble) + [DoubleOrZero(durations[|durations| - 1], parseDouble)]
  }

  /**
   * `secondsToHoursMinutesSeconds` with Swift's truncating `/` and `%`: the parts add
   * back up to the seconds, and for a non-negative count minutes and seconds are below 60.
   */
  function SecondsToHoursMinutesSeconds(seconds: int): (r: HoursMinutesSeconds)
    ensures r.hour * 3600 + r.minutes * 60 + r.seconds == seconds
    ensures seconds >= 0 ==> 0 <= r.hour && 0 <= r.minutes < 60 && 0 <= r.seconds < 60
    ensures seconds <= 0 ==> r.hour <= 0 && -60 < r.minutes <= 0 && -60 < r.seconds <= 0
  {
    var withinHour := Rem(seconds, 3600);
    HoursMinutesSeconds(Quot(seconds, 3600), Quot(withinHour, 60), Rem(withinHour, 60))
  }

  /**
   * Splitting the whole seconds of a time this way agrees with `toHours` of that time,
   * for negative times as well.
   */
  lemma SplitAgreesWithToHours(t: real)
    ensures SecondsToHoursMinutesSeconds(Trunc(t)) == ToHours(t)
  {
    var r := SecondsToHoursMinutesSeconds(Trunc(t));
    var q := ToHours(t);
    SplitsAgree(r, q, Trunc(t));
  }

  /** Two splits of the same count with parts of the count's sign and below 60 are equal. */
  lemma SplitsAgree(r: HoursMinutesSeconds, q: HoursMinutesSeconds, n: int)
    requires r.hour * 3600 + r.minutes * 60 + r.seconds == n
    requires q.hour * 3600 + q.minutes * 60 + q.seconds == n
    requires n >= 0 ==> 0 <= r.minutes < 60 && 0 <= r.seconds < 60 && 0 <= q.minutes < 60 && 0 <= q.seconds < 60
    requires n <= 0 ==> -60 < r.minutes <= 0 && -60 < r.seconds <= 0 && -60 < q.minutes <= 0 && -60 < q.seconds <= 0
    ensures r == q
  {
    var d := (r.hour - q.hour) * 3600 + (r.minutes - q.minutes) * 60 + (r.seconds - q.seconds);
    assert d == 0;
    assert -60 < r.seconds - q.seconds < 60;
    assert r.seconds == q.seconds;
    assert (r.hour - q.hour) * 60 + (r.minutes - q.minutes) == 0;
    assert r.minutes == q.minutes;
  }

  /** The result line: hours and minutes, the seconds dropped. */
  function ResultText(result: real): string {
    var parts := SecondsToHoursMinutesSeconds(Trunc(result));
    IntToString(parts.hour) + " Hours, " + IntToString(parts.minutes) + " Minutes"
  }

  /**
   * For a non-negative result the line shows whole hours and the whole minutes left over,
   * computed with Euclidean division of the whole seconds; a change of less than a minute
   * within the same minute does not change the line.
   */
  lemma ResultShowsWholeMinutes(result: real)
    requires result >= 0.0
    ensures var n := Trunc(result);
      ResultText(result) == IntToString(n / 3600) + " Hours, " + IntToString(n % 3600 / 60) + " Minutes"
  {
    var n := Trunc(result);
    var parts := SecondsToHoursMinutesSeconds(n);
    assert parts.hour == n / 3600 && parts.minutes == n % 3600 / 60 by {
      SplitsAgree(parts, HoursMinutesSeconds(n / 3600, n % 3600 / 60, n % 60), n);
    }
  }

  class LightFormulaViewModel {
    var decayConstant: string
    var lowAsymptote: string
    var decayConstantDriving: string
    var initialSleepPressure: string
    var circadianAmplitude: string
    var circadianAcrophase: string
    var maxSafetyTime: string
    var wakeupHourToday: string
    var sleepDurations: seq<string>
    var lightFormulaResult: string

    /** Empty parameter fields, wake-up at "7", a week of "8" hours of sleep and no result. */
    constructor()
      ensures decayConstant == "" && lowAsymptote == "" && decayConstantDriving == ""
      ensures initialSleepPressure == "" && circadianAmplitude == "" && circadianAcrophase == ""
      ensures maxSafetyTime == "" && lightFormulaResult == ""
      ensures wakeupHourToday == "7"
      ensures |sleepDurations| == 7 && forall i :: 0 <= i < 7 ==> sleepDurations[i] == "8"
    {
      decayConstant := "";
      lowAsymptote := "";
      decayConstantDriving := "";
      initialSleepPressure := "";
      circadianAmplitude := "";
      circadianAcrophase := "";
      maxSafetyTime := "";
      wakeupHourToday := "7";
      sleepDurations := ["8", "8", "8", "8", "8", "8", "8"];
      lightFormulaResult := "";
    }

    /**
     * `resetAllSleepHistoryTo(value:)`: overwrites each entry in turn, so the history keeps
     * its length and every entry becomes the text of `value`; nothing else changes.
     */
    method ResetAllSleepHistoryTo(value: real, describe: real -> string)
      modifies this
      ensures |sleepDurations| == |old(sleepDurations)|
      ensures forall i :: 0 <= i < |sleepDurations| ==> sleepDurations[i] == describe(value)
      ensures wakeupHourToday == old(wakeupHourToday) && lightFormulaResult == old(lightFormulaResult)
      ensures ParameterTexts() == old(ParameterTexts())
    {
      for i := 0 to |sleepDurations|
        invariant |sleepDurations| == |old(sleepDurations)|
        invariant forall j :: 0 <= j < i ==> sleepDurations[j] == describe(value)
        invariant forall j :: i <= j < |sleepDurations| ==> sleepDurations[j] == old(sleepDurations)[j]
        invariant wakeupHourToday == old(wakeupHourToday) && lightFormulaResult == old(lightFormulaResult)
        invariant ParameterTexts() == old(ParameterTexts())
      {
        sleepDurations := sleepDurations[i := describe(value)];
      }
    }

    /** `resetSleepHistory`: every entry becomes the text of 8 hours. */
    method ResetSleepHistory(describe: real -> string)
      modifies this
      ensures |sleepDurations| == |old(sleepDurations)|
      ensures forall i :: 0 <= i < |sleepDurations| ==> sleepDurations[i] == describe(8.0)
      ensures wakeupHourToday == old(wakeupHourToday) && lightFormulaResult == old(lightFormulaResult)
      ensures ParameterTexts() == old(ParameterTexts())
    {
      ResetAllSleepHistoryTo(8.0, describe);
    }

    /** The seven parameter fields, in order. */
    function ParameterTexts(): seq<string>
      reads this
    {
      [decayConstant, lowAsymptote, decayConstantDriving, initialSleepPressure,
       circadianAmplitude, circadianAcrophase, maxSafetyTime]
    }

    /**
     * The inputs `calculateLightFormula` hands to the formula: each parameter or 0, each
     * history entry or 0, and hours awake as the current hour minus the wake-up hour (7
     * when it does not parse), with no clamp.
     */
    function Inputs(currentHour: int, parseDouble: string -> Option<real>): (inputs: FormulaInputs)
      reads this
      ensures inputs.parameters.decayConstant == DoubleOrZero(decayConstant, parseDouble)
      ensures inputs.parameters.lowAsymptote == DoubleOrZero(lowAsymptote, parseDouble)
      ensures inputs.parameters.decayConstantDriving == DoubleOrZero(decayConstantDriving, parseDouble)
      ensures inputs.parameters.initialSleepPressure == DoubleOrZero(initialSleepPressure, parseDouble)
      ensures inputs.parameters.circadianAmplitude == DoubleOrZero(circadianAmplitude, parseDouble)
      ensures inputs.parameters.circadianAcrophase == DoubleOrZero(circadianAcrophase, parseDouble)
      ensures inputs.parameters.maxSafetyTime == DoubleOrZero(maxSafetyTime, parseDouble)
      ensures |inputs.lastSleepHours| == |sleepDurations|
      ensures forall i :: 0 <= i < |sleepDurations| ==>
                inputs.lastSleepHours[i] == DoubleOrZero(sleepDurations[i], parseDouble)
      ensures inputs.hoursAwake + WakeUpHour(wakeupHourToday) == currentHour
      ensures inputs.currentHour == currentHour
    {
      FormulaInputs(
        Parameters(
          DoubleOrZero(decayConstant, parseDouble), DoubleOrZero(lowAsymptote, parseDouble),
          DoubleOrZero(decayConstantDriving, parseDouble), DoubleOrZero(initialSleepPressure, parseDouble),
          DoubleOrZero(circadianAmplitude, parseDouble), DoubleOrZero(circadianAcrophase, parseDouble),
          DoubleOrZero(maxSafetyTime, parseDouble)),
        SleepHistory(sleepDurations, parseDouble),
        currentHour - WakeUpHour(wakeupHourToday),
        currentHour)
    }

    /** `calculateLightFormula`: runs the formula on the inputs and shows its result in hours and minutes. */
    method CalculateLightFormula(currentHour: int, parseDouble: string -> Option<real>, formula: FormulaInputs -> real)
      modifies this
      ensures lightFormulaResult == ResultText(formula(old(Inputs(currentHour, parseDouble))))
      ensures sleepDurations == old(sleepDurations) && wakeupHourToday == old(wakeupHourToday)
      ensures ParameterTexts() == old(ParameterTexts())
    {
      var res := formula(Inputs(currentHour, parseDouble));
      var parts := SecondsToHoursMinutesSeconds(Trunc(res));
      lightFormulaResult := IntToString(parts.hour) + " Hours, " + IntToString(parts.minutes) + " Minutes";
    }
  }

  /** Before the default wake-up hour, hours awake is passed negative: 5 o'clock gives -2. */
  lemma HoursAwakeNotClamped(currentHour: int)
    requires 0 <= currentHour < 7
    ensures currentHour - WakeUpHour("7") < 0
    ensures currentHour == 5 ==> currentHour - WakeUpHour("7") == -2
  {
    assert "7"[..0] == [];
    assert IntFromText("7") == Some(7);
  }

  /** A wake-up field that is empty or not a number counts as 7. */
  lemma WakeUpFallback(text: string)
    requires text == [] || text[0] !in "+-0123456789"
    ensures WakeUpHour(text) == 7
  {
    if text != [] {
      assert !IsDigits(text);
    }
  }
}
