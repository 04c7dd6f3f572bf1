/**
 * HealthKit sleep-analysis values and the string ids they are uploaded under
 * (HKSleepProperties).
 *
 * `HKCategoryValueSleepAnalysis.asleep` is the deprecated alias of `.asleepUnspecified`
 * (both have raw value 1), so the two are one constructor here; a `switch` over the
 * value takes the `.asleepUnspecified` arm for either spelling. The `@unknown default`
 * arm stands for raw values this model does not have.
 *
 * `fine` stands for the `#available(iOS 16.0, *)` test: it is true on iOS 16 and later,
 * where HealthKit reports the core, deep and REM stages.
 */
module SleepProperties {
  import opened Wrappers

  datatype Stage = InBed | AsleepUnspecified | Awake | AsleepCore | AsleepDeep | AsleepREM

  /** Every stage, in declaration order. */
  const AllStages: seq<Stage> := [InBed, AsleepUnspecified, Awake, AsleepCore, AsleepDeep, AsleepREM]

  lemma AllStagesComplete(s: Stage)
    ensures s in AllStages
  {
  }

  /** The name shown for a stage; it is never absent and no two stages share one. */
  function DisplayName(s: Stage): (name: Option<string>)
    ensures name.Some? && name.value != ""
  {
    Some(match s
      case InBed => "in Bed"
      case AsleepUnspecified => "Unspecified"
      case Awake => "Awake"
      case AsleepCore => "Core"
      case AsleepDeep => "Deep"
      case AsleepREM => "REM")
  }

  lemma DisplayNamesDistinct(s: Stage, t: Stage)
    requires s != t
    ensures DisplayName(s) != DisplayName(t)
  {
  }

  /**
   * The upload id of each stage: three entries before iOS 16, six from iOS 16 on, where
   * `.asleepUnspecified` is renamed. Ids are non-empty and distinct.
   */
  function StringIds(fine: bool): (ids: map<Stage, string>)
    ensures ids.Keys == if fine then {InBed, AsleepUnspecified, Awake, AsleepCore, AsleepDeep, AsleepREM}
                        else {InBed, AsleepUnspecified, Awake}
    ensures forall s :: s in ids ==> ids[s] != ""
    ensures forall s, t :: s in ids && t in ids && s != t ==> ids[s] != ids[t]
  {
    if fine then
      map[InBed := "inBed", AsleepUnspecified := "asleepUnspecified", Awake := "awake",
          AsleepCore := "asleepCore", AsleepDeep := "asleepDeep", AsleepREM := "asleepREM"]
    else map[InBed := "inBed", AsleepUnspecified := "asleep", Awake := "awake"]
  }

  lemma {:induction false} TableSize(fine: bool)
    ensures |StringIds(fine)| == if fine then 6 else 3
  {
    var ids := StringIds(fine);
    assert |ids| == |ids.Keys|;
    if fine {
      SixStages();
    } else {
      ThreeStages();
    }
  }

  lemma ThreeStages()
    ensures |{InBed, AsleepUnspecified, Awake}| == 3
  {
    assert |{InBed, AsleepUnspecified}| == 2;
  }

  lemma SixStages()
    ensures |{InBed, AsleepUnspecified, Awake, AsleepCore, AsleepDeep, AsleepREM}| == 6
  {
    ThreeStages();
    var three := {InBed, AsleepUnspecified, Awake};
    assert |three + {AsleepCore}| == 4;
    assert |three + {AsleepCore} + {AsleepDeep}| == 5;
    assert three + {AsleepCore} + {AsleepDeep} + {AsleepREM}
        == {InBed, AsleepUnspecified, Awake, AsleepCore, AsleepDeep, AsleepREM};
  }

  /** `.asleepUnspecified` is "asleep" before iOS 16 and "asleepUnspecified" from iOS 16 on. */
  lemma UnspecifiedRenamed()
    ensures StringId(AsleepUnspecified, false) == "asleep"
    ensures StringId(AsleepUnspecified, true) == "asleepUnspecified"
  {
  }

  /** The id of a stage, or "" for a stage absent from the table. */
  function StringId(s: Stage, fine: bool): (id: string)
    ensures id == "" <==> s !in StringIds(fine)
    ensures s in StringIds(fine) ==> id == StringIds(fine)[s]
  {
    var ids := StringIds(fine);
    if s in ids then ids[s] else ""
  }

  /**
   * The stage whose id is `id`, or None. The dictionary is searched in an unspecified
   * order; since ids are distinct, at most one entry matches, so the order does not
   * affect the answer.
   */
  function SleepSegmentType(id: string, fine: bool): (r: Option<Stage>)
    ensures r.Some? <==> exists s :: s in StringIds(fine) && StringIds(fine)[s] == id
    ensures r.Some? ==> r.value in StringIds(fine) && StringIds(fine)[r.value] == id
  {
    assert forall s: Stage :: s in AllStages by {
      forall s: Stage ensures s in AllStages {
        AllStagesComplete(s);
      }
    }
    FirstWithId(StringIds(fine), id, AllStages)
  }

  /** The first of `candidates` whose entry in `ids` is `id`. */
  function FirstWithId(ids: map<Stage, string>, id: string, candidates: seq<Stage>): (r: Option<Stage>)
    ensures r.Some? <==> exists s :: s in candidates && s in ids && ids[s] == id
    ensures r.Some? ==> r.value in ids && ids[r.value] == id
  {
    if candidates == [] then None
    else if candidates[0] in ids && ids[candidates[0]] == id then Some(candidates[0])
    else
      assert forall s :: s in candidates ==> s == candidates[0] || s in candidates[1..];
      FirstWithId(ids, id, candidates[1..])
  }

  /** Looking up the id of any stage in the table gives the stage back. */
  lemma IdRoundTrip(s: Stage, fine: bool)
    requires s in StringIds(fine)
    ensures SleepSegmentType(StringId(s, fine), fine) == Some(s)
  {
    var ids := StringIds(fine);
    var r := SleepSegmentType(StringId(s, fine), fine);
    assert ids[s] == StringId(s, fine);
    assert r.Some?;
    assert ids[r.value] == ids[s];
  }

  /** No stage has the empty id, so "" (and every other unknown id) is not found. */
  lemma UnknownIdIsNone(id: string, fine: bool)
    requires forall s :: s in StringIds(fine) ==> StringIds(fine)[s] != id
    ensures SleepSegmentType(id, fine) == None
  {
  }

  lemma EmptyIdIsNone(fine: bool)
    ensures SleepSegmentType("", fine) == None
  {
    UnknownIdIsNone("", fine);
  }

  /** Before iOS 16 the core, deep and REM stages have no id. */
  lemma FineStagesAbsentBefore16(s: Stage)
    requires s == AsleepCore || s == AsleepDeep || s == AsleepREM
    ensures StringId(s, false) == ""
    ensures StringId(s, true) != ""
  {
  }
}
