/**
 * Splitting a TimeInterval into units and the text built from them
 * (TimeInterval+Extensions: toHours, verboseTimeString, formattedTime).
 *
 * A TimeInterval is a Double: a `real` here. `Int(x)` and `NSInteger(x)` truncate toward
 * zero, and Swift's `/` and `%` on Int truncate toward zero as well, unlike Dafny's
 * Euclidean operators; `Trunc`, `Quot` and `Rem` write those out.
 */
module TimeFormat {

  // ---------------------------------------------------------------------------
  // Swift integer conversion and division
  // ---------------------------------------------------------------------------

  /** `Int(x)` for a finite Double: the integer part, rounded toward zero. */
  function Trunc(x: real): (n: int)
    ensures x >= 0.0 ==> 0 <= n && n as real <= x < n as real + 1.0
    ensures x < 0.0 ==> n <= 0 && n as real - 1.0 < x <= n as real
  {
    if x >= 0.0 then x.Floor else -((-x).Floor)
  }

  /** Swift's `a / b` for b > 0: the quotient rounded toward zero. */
  function Quot(a: int, b: int): (q: int)
    requires b > 0
    ensures a >= 0 ==> q == a / b
    ensures a >= 0 ==> q >= 0
    ensures a <= 0 ==> q <= 0
  {
    if a >= 0 then a / b else -((-a) / b)
  }

  /** Swift's `a % b` for b > 0: the remainder takes the sign of `a`. */
  function Rem(a: int, b: int): (r: int)
    requires b > 0
    ensures a == b * Quot(a, b) + r
    ensures a >= 0 ==> 0 <= r < b
    ensures a <= 0 ==> -b < r <= 0
  {
    if a >= 0 then a % b else -((-a) % b)
  }

  /** Truncating division by 60 twice is truncating division by 3600. */
  lemma QuotQuot60(a: int)
    ensures Quot(Quot(a, 60), 60) == Quot(a, 3600)
  {
  }

  // ---------------------------------------------------------------------------
  // Decimal text of an integer ("\(value)")
  // ---------------------------------------------------------------------------

  function DigitChar(d: int): char
    requires 0 <= d < 10
  {
    ('0' as int + d) as char
  }

  predicate IsDigits(s: string) {
    forall i :: 0 <= i < |s| ==> '0' <= s[i] <= '9'
  }

  /** The decimal numeral of `n`: digits only, no leading zero. */
  function NatToString(n: nat): (s: string)
    ensures |s| >= 1 && IsDigits(s)
    ensures s[0] == '0' ==> n == 0
  {
    if n < 10 then [DigitChar(n)] else NatToString(n / 10) + [DigitChar(n % 10)]
  }

  /** The value a string of digits denotes: the reference the numeral is checked against. */
  function DecimalValue(s: string): nat
    requires IsDigits(s)
  {
    if s == [] then 0 else 10 * DecimalValue(s[..|s| - 1]) + (s[|s| - 1] as int - '0' as int)
  }

  lemma {:induction false} NatToStringRoundTrip(n: nat)
    ensures DecimalValue(NatToString(n)) == n
  {
    var s := NatToString(n);
    if n >= 10 {
      NatToStringRoundTrip(n / 10);
      assert s[..|s| - 1] == NatToString(n / 10);
    }
  }

  /** Swift's description of an Int: a minus sign before a negative value. */
  function IntToString(i: int): (s: string)
    ensures |s| >= 1
    ensures s[0] == '-' <==> i < 0
  {
    if i < 0 then "-" + NatToString(-i) else NatToString(i)
  }

  function ParseInt(s: string): int
    requires |s| >= 1
    requires IsDigits(if s[0] == '-' then s[1..] else s)
  {
    if s[0] == '-' then -(DecimalValue(s[1..]) as int) else DecimalValue(s)
  }

  lemma IntToStringRoundTrip(i: int)
    ensures ParseInt(IntToString(i)) == i
  {
    var s := IntToString(i);
    if i < 0 {
      assert s[1..] == NatToString(-i);
      NatToStringRoundTrip(-i);
    } else {
      NatToStringRoundTrip(i);
    }
  }

  /** "<value> <singular>" when the value is 1, "<value> <plural>" otherwise. */
  function Label(value: nat, singular: string, plural: string): string {
    NatToString(value) + " " + (if value == 1 then singular else plural)
  }

  /** The singular label is used exactly when the value is 1 (the labels differ in length). */
  lemma LabelSingularIff(value: nat, singular: string, plural: string)
    requires |singular| != |plural|
    ensures Label(value, singular, plural) == NatToString(value) + " " + singular <==> value == 1
  {
    if value != 1 {
      assert |Label(value, singular, plural)| != |NatToString(value) + " " + singular|;
    }
  }

  // ---------------------------------------------------------------------------
  // toHours (lines 56-71)
  // ---------------------------------------------------------------------------

  datatype HoursMinutesSeconds = HoursMinutesSeconds(hour: int, minutes: int, seconds: int)

  /**
   * Whole hours, minutes past the hour and seconds past the minute. Together they give
   * back the whole seconds of `t`; for t >= 0 the minutes and seconds lie in [0, 60), and
   * for negative `t` every part is negative or zero.
   */
  function ToHours(t: real): (r: HoursMinutesSeconds)
    ensures r.hour * 3600 + r.minutes * 60 + r.seconds == Trunc(t)
    ensures t >= 0.0 ==> 0 <= r.hour && 0 <= r.minutes < 60 && 0 <= r.seconds < 60
    ensures t < 0.0 ==> r.hour <= 0 && -60 < r.minutes <= 0 && -60 < r.seconds <= 0
  {
    var time := Trunc(t);
    QuotQuot60(time);
    HoursMinutesSeconds(Quot(time, 3600), Rem(Quot(time, 60), 60), Rem(time, 60))
  }

  // ---------------------------------------------------------------------------
  // verboseTimeString (lines 12-54)
  // ---------------------------------------------------------------------------

  /** One entry of the `values` list: a count and its two labels. */
  datatype TimeUnit = TimeUnit(value: int, singular: string, plural: string)

  /** Hours and minutes, then seconds when `includeSeconds` is set. */
  function VerboseUnits(t: real, includeSeconds: bool): (units: seq<TimeUnit>)
    ensures |units| == if includeSeconds then 3 else 2
  {
    var parts := ToHours(t);
    [TimeUnit(parts.hour, "Hr", "Hrs"), TimeUnit(parts.minutes, "Min", "Mins")]
      + (if includeSeconds then [TimeUnit(parts.seconds, "Sec", "Secs")] else [])
  }

  /**
   * One step of the loop: a space whenever the answer so far is non-empty, then the
   * unit's label when its value is positive.
   */
  function AppendUnit(answer: string, u: TimeUnit): string {
    (if answer != "" then answer + " " else answer)
      + (if u.value > 0 then Label(u.value, u.singular, u.plural) else "")
  }

  /** The answer after the loop has visited every unit of `units`, in order. */
  function VerboseText(units: seq<TimeUnit>): string {
    if units == [] then "" else AppendUnit(VerboseText(units[..|units| - 1]), units[|units| - 1])
  }

  method VerboseTimeString(t: real, includeSeconds: bool) returns (answer: string)
    ensures answer == VerboseText(VerboseUnits(t, includeSeconds))
  {
    var values := VerboseUnits(t, includeSeconds);
    answer := "";
    for i := 0 to |values|
      invariant answer == VerboseText(values[..i])
    {
      if answer != "" {
        answer := answer + " ";
      }
      var u := values[i];
      if u.value > 0 {
        answer := answer + Label(u.value, u.singular, u.plural);
      }
      assert values[..i + 1][..i] == values[..i];
    }
    assert values[..|values|] == values;
  }

  /** The answer is empty exactly when no unit has a positive value. */
  lemma {:induction false} VerboseEmptyIff(units: seq<TimeUnit>)
    ensures VerboseText(units) == "" <==> forall i :: 0 <= i < |units| ==> units[i].value <= 0
  {
    if units != [] {
      var init := units[..|units| - 1];
      VerboseEmptyIff(init);
      assert forall i :: 0 <= i < |init| ==> init[i] == units[i];
    }
  }

  /**
   * Without seconds the text is the hours label followed by a space whenever there are
   * hours, then the minutes label whenever there are minutes: a zero minute count leaves
   * a trailing space, and the seconds never appear.
   */
  lemma HoursMinutesText(t: real)
    ensures var p := ToHours(t);
      VerboseText(VerboseUnits(t, false))
        == (if p.hour > 0 then Label(p.hour, "Hr", "Hrs") + " " else "")
           + (if p.minutes > 0 then Label(p.minutes, "Min", "Mins") else "")
  {
    var p := ToHours(t);
    var hours := TimeUnit(p.hour, "Hr", "Hrs");
    var minutes := TimeUnit(p.minutes, "Min", "Mins");
    assert VerboseUnits(t, false) == [hours, minutes];
    assert [hours, minutes][..1] == [hours] && [hours][..0] == [];
    var head := AppendUnit("", hours);
    assert VerboseText([hours]) == head;
    assert head != "" <==> p.hour > 0;
    assert VerboseText([hours, minutes]) == AppendUnit(head, minutes);
  }

  /** With seconds, the seconds label follows the hours-and-minutes text after a space. */
  lemma HoursMinutesSecondsText(t: real)
    ensures var p := ToHours(t);
      var head := VerboseText(VerboseUnits(t, false));
      VerboseText(VerboseUnits(t, true))
        == (if head != "" then head + " " else "")
           + (if p.seconds > 0 then Label(p.seconds, "Sec", "Secs") else "")
  {
    var units := VerboseUnits(t, true);
    assert units[..|units| - 1] == VerboseUnits(t, false);
  }

  /**
   * `verboseTimeString()` of a whole number of seconds: the hours label and a space when
   * there are hours, then the minutes label when there are minutes.
   */
  function HoursMinutesVerbose(time: int): string {
    var hours := Quot(time, 3600);
    var minutes := Rem(Quot(time, 60), 60);
    (if hours > 0 then Label(hours, "Hr", "Hrs") + " " else "")
      + (if minutes > 0 then Label(minutes, "Min", "Mins") else "")
  }

  lemma WholeSecondsVerbose(time: int)
    ensures VerboseText(VerboseUnits(time as real, false)) == HoursMinutesVerbose(time)
  {
    HoursMinutesText(time as real);
    assert Trunc(time as real) == time;
  }

  /** Two hours and no minutes give "2 Hrs " with a trailing space; five minutes give "5 Mins". */
  lemma TrailingSpaceQuirk()
    ensures VerboseText(VerboseUnits(7200.0, false)) == "2 Hrs "
    ensures VerboseText(VerboseUnits(300.0, false)) == "5 Mins"
  {
    WholeSecondsVerbose(7200);
    WholeSecondsVerbose(300);
    assert Quot(7200, 3600) == 2 && Rem(Quot(7200, 60), 60) == 0;
    assert Quot(300, 3600) == 0 && Rem(Quot(300, 60), 60) == 5;
  }

  // ---------------------------------------------------------------------------
  // formattedTime (lines 73-101)
  // ---------------------------------------------------------------------------

  datatype DaysHoursMinutesSeconds = DaysHoursMinutesSeconds(days: int, hours: int, minutes: int, seconds: int)

  /** The four counts formattedTime computes from the whole seconds `time`. */
  function Decompose(time: int): DaysHoursMinutesSeconds {
    DaysHoursMinutesSeconds(Quot(time, 86400), Quot(Rem(time, 86400), 3600),
                            Quot(Rem(time, 3600), 60), Rem(time, 60))
  }

  /** For non-negative time the counts are a days/hours/minutes/seconds split. */
  lemma DecomposeSplits(time: int)
    requires time >= 0
    ensures var d := Decompose(time);
      d.days * 86400 + d.hours * 3600 + d.minutes * 60 + d.seconds == time
      && d.days >= 0 && 0 <= d.hours < 24 && 0 <= d.minutes < 60 && 0 <= d.seconds < 60
  {
    var d := Decompose(time);
    var inDay := Rem(time, 86400);
    RemWithinDay(time);
    assert inDay == 3600 * d.hours + Rem(time, 3600);
    assert Rem(time, 3600) == 60 * d.minutes + Rem(Rem(time, 3600), 60);
    RemWithinHour(time);
  }

  lemma RemWithinDay(time: int)
    requires time >= 0
    ensures Rem(Rem(time, 86400), 3600) == Rem(time, 3600)
  {
    assert time == 3600 * (24 * Quot(time, 86400) + Quot(Rem(time, 86400), 3600)) + Rem(Rem(time, 86400), 3600);
  }

  lemma RemWithinHour(time: int)
    requires time >= 0
    ensures Rem(Rem(time, 3600), 60) == Rem(time, 60)
  {
    assert time == 60 * (60 * Quot(time, 3600) + Quot(Rem(time, 3600), 60)) + Rem(Rem(time, 3600), 60);
  }

  /** For negative time every count is negative or zero. */
  lemma DecomposeNegative(time: int)
    requires time < 0
    ensures var d := Decompose(time);
      d.days <= 0 && d.hours <= 0 && d.minutes <= 0 && d.seconds <= 0
  {
  }

  function DayUnits(d: DaysHoursMinutesSeconds): seq<TimeUnit> {
    [TimeUnit(d.days, "day", "days"), TimeUnit(d.hours, "hr", "hrs"),
     TimeUnit(d.minutes, "min", "mins"), TimeUnit(d.seconds, "sec", "secs")]
  }

  /** The labels of the units with a positive value, in order. */
  function PositiveLabels(units: seq<TimeUnit>): (labels: seq<string>)
    ensures |labels| <= |units|
    ensures forall i :: 0 <= i < |labels| ==> labels[i] != ""
  {
    if units == [] then []
    else
      var rest := PositiveLabels(units[1..]);
      if units[0].value > 0 then [Label(units[0].value, units[0].singular, units[0].plural)] + rest
      else rest
  }

  /** The label list of a unit, when its value is positive. */
  function LabelIfPositive(u: TimeUnit): seq<string> {
    if u.value > 0 then [Label(u.value, u.singular, u.plural)] else []
  }

  lemma PositiveLabelsOfFour(units: seq<TimeUnit>)
    requires |units| == 4
    ensures PositiveLabels(units)
      == LabelIfPositive(units[0]) + LabelIfPositive(units[1]) + LabelIfPositive(units[2]) + LabelIfPositive(units[3])
  {
    var u1 := units[1..];
    var u2 := u1[1..];
    var u3 := u2[1..];
    assert u1[0] == units[1] && u2[0] == units[2] && u3[0] == units[3];
    assert u3[1..] == [];
    PositiveLabelsCons(u3);
    var p3 := LabelIfPositive(units[3]);
    assert PositiveLabels(u3) == p3;
    PositiveLabelsCons(u2);
    var p2 := LabelIfPositive(units[2]) + p3;
    assert PositiveLabels(u2) == p2;
    PositiveLabelsCons(u1);
    var p1 := LabelIfPositive(units[1]) + p2;
    assert PositiveLabels(u1) == p1;
    PositiveLabelsCons(units);
    assert PositiveLabels(units) == LabelIfPositive(units[0]) + p1;
  }

  /** One unfolding of PositiveLabels. */
  lemma PositiveLabelsCons(units: seq<TimeUnit>)
    requires units != []
    ensures PositiveLabels(units) == LabelIfPositive(units[0]) + PositiveLabels(units[1..])
  {
  }

  lemma {:induction false} PositiveLabelsEmptyIff(units: seq<TimeUnit>)
    ensures PositiveLabels(units) == [] <==> forall i :: 0 <= i < |units| ==> units[i].value <= 0
  {
    if units != [] {
      PositiveLabelsEmptyIff(units[1..]);
      assert forall i :: 1 <= i < |units| ==> units[i] == units[1..][i - 1];
    }
  }

  /** `joined(separator:)`. */
  function Join(parts: seq<string>, sep: string): (s: string)
    ensures |parts| == 1 ==> s == parts[0]
    ensures (forall i :: 0 <= i < |parts| ==> parts[i] != "") ==> (s == "" <==> parts == [])
  {
    if parts == [] then ""
    else if |parts| == 1 then parts[0]
    else
      parts[0] + sep + Join(parts[1..], sep)
  }

  method FormattedTime(t: real) returns (text: string)
    ensures text == Join(PositiveLabels(DayUnits(Decompose(Trunc(t)))), " ")
  {
    var time := Trunc(t);
    var days := Quot(time, 86400);
    var hours := Quot(Rem(time, 86400), 3600);
    var minutes := Quot(Rem(time, 3600), 60);
    var seconds := Rem(time, 60);
    ghost var units := DayUnits(Decompose(time));
    var components: seq<string> := [];
    if days > 0 {
      components := components + [Label(days, "day", "days")];
    }
    assert components == LabelIfPositive(units[0]);
    if hours > 0 {
      components := components + [Label(hours, "hr", "hrs")];
    }
    assert components == LabelIfPositive(units[0]) + LabelIfPositive(units[1]);
    if minutes > 0 {
      components := components + [Label(minutes, "min", "mins")];
    }
    assert components == LabelIfPositive(units[0]) + LabelIfPositive(units[1]) + LabelIfPositive(units[2]);
    if seconds > 0 {
      components := components + [Label(seconds, "sec", "secs")];
    }
    assert components == LabelIfPositive(units[0]) + LabelIfPositive(units[1]) + LabelIfPositive(units[2])
                          + LabelIfPositive(units[3]);
    PositiveLabelsOfFour(units);
    text := Join(components, " ");
  }

  /** formattedTime is empty exactly when the whole seconds are not positive. */
  lemma FormattedEmptyIff(t: real)
    ensures Join(PositiveLabels(DayUnits(Decompose(Trunc(t)))), " ") == "" <==> Trunc(t) <= 0
  {
    var time := Trunc(t);
    var units := DayUnits(Decompose(time));
    PositiveLabelsEmptyIff(units);
    if time > 0 {
      DecomposeSplits(time);
      var d := Decompose(time);
      if d.days > 0 {
        assert units[0].value > 0;
      } else if d.hours > 0 {
        assert units[1].value > 0;
      } else if d.minutes > 0 {
        assert units[2].value > 0;
      } else {
        assert units[3].value > 0;
      }
    } else if time < 0 {
      DecomposeNegative(time);
    }
  }
}
