/**
 * The trip screen's state (HealthDataViewModel): the trip status, the values the health
 * provider publishes, and the button and message shown for the status.
 *
 * The health provider lives outside this model; the calls made on it are recorded, in
 * order, in `requests`. Each Combine subscription is a method run when its publisher
 * emits, and each deferred block is a method run when the block fires. `Date()` is the
 * parameter `now`, in seconds since the epoch; times are real numbers of seconds.
 */
module HealthData {
  import Wrappers

  /** TripState. A started trip stays `None` until the provider reports elapsed time. */
  datatype TripState = None | Running | Completed

  /** The colours the screen uses; `FadedBlack` is black at 40% opacity. */
  datatype Color = Teal | Red | Orange | Blue | FadedBlack

  /** DaciaHealthError, an error reported by the provider, with its message. */
  datatype HealthError = HealthError(message: string)

  /** A call on the health provider. */
  datatype ProviderRequest = StartTrip | StopTrip | CalculateTripTime

  /** What the screen shows for each status: button text and colour, message and colour. */
  function ButtonText(s: TripState): string {
    match s
    case Running => "Stop"
    case Completed => "Rest Now!"
    case None => "Start"
  }

  function ButtonBackground(s: TripState): Color {
    match s
    case Running => Red
    case Completed => Blue
    case None => Teal
  }

  function Message(s: TripState): string {
    match s
    case Running => "Running trip"
    case Completed => "Rest now!"
    case None => "New Trip"
  }

  function MessageColor(s: TripState): Color {
    match s
    case Running => Orange
    case Completed => Red
    case None => FadedBlack
  }

  /** Each of the four shown values tells the statuses apart, so the screen never shows a stale status. */
  lemma DisplayDistinguishesStatus(s: TripState, t: TripState)
    ensures ButtonText(s) == ButtonText(t) <==> s == t
    ensures ButtonBackground(s) == ButtonBackground(t) <==> s == t
    ensures Message(s) == Message(t) <==> s == t
    ensures MessageColor(s) == MessageColor(t) <==> s == t
  {
  }

  /** The events the screen reacts to. */
  datatype Event =
    | Toggle
    | TimeBeforeRest(time: real)
    | Elapsed(time: real)
    | RestNow
    | Failed(error: HealthError)
    | Refresh

  /** An event that sets the status: the button, an elapsed-time report, or a rest report. */
  predicate Steers(e: Event) {
    e.Toggle? || e.Elapsed? || e.RestNow?
  }

  /** The status after one event. */
  function NextStatus(s: TripState, e: Event): (t: TripState)
    ensures Steers(e) ==> t == Target(e)
    ensures !Steers(e) ==> t == s
  {
    match e
    case Toggle => None
    case Elapsed(_) => Running
    case RestNow => Completed
    case _ => s
  }

  /** The status a steering event sets: the button always ends the trip, even an unstarted one. */
  function Target(e: Event): TripState
    requires Steers(e)
  {
    if e.Toggle? then None else if e.Elapsed? then Running else Completed
  }

  /** The status after a run of events, oldest first. */
  function StatusAfter(s: TripState, events: seq<Event>): TripState {
    if events == [] then s
    else NextStatus(StatusAfter(s, events[..|events| - 1]), events[|events| - 1])
  }

  /** Events that do not steer leave the status as it was. */
  lemma {:induction false} UnsteeredKeepsStatus(s: TripState, events: seq<Event>)
    requires forall j :: 0 <= j < |events| ==> !Steers(events[j])
    ensures StatusAfter(s, events) == s
  {
    if events != [] {
      var init := events[..|events| - 1];
      UnsteeredKeepsStatus(s, init);
    }
  }

  /** The status is set by the last steering event, whatever came before it. */
  lemma {:induction false} LastSteerDecides(s: TripState, events: seq<Event>, i: int)
    requires 0 <= i < |events| && Steers(events[i])
    requires forall j :: i < j < |events| ==> !Steers(events[j])
    ensures StatusAfter(s, events) == Target(events[i])
  {
    var init := events[..|events| - 1];
    if i == |events| - 1 {
    } else {
      LastSteerDecides(s, init, i);
    }
  }

  /** A trip is running only after an elapsed-time report with no button press or rest report since. */
  lemma RunningNeedsElapsed(s: TripState, events: seq<Event>)
    requires s == None
    ensures StatusAfter(s, events) == Running <==>
              exists i :: 0 <= i < |events| && events[i].Elapsed?
                          && forall j :: i < j < |events| ==> !Steers(events[j])
  {
    if i :| 0 <= i < |events| && events[i].Elapsed? && forall j :: i < j < |events| ==> !Steers(events[j]) {
      LastSteerDecides(s, events, i);
    } else {
      if k :| 0 <= k < |events| && Steers(events[k]) && forall j :: k < j < |events| ==> !Steers(events[j]) {
        LastSteerDecides(s, events, k);
      } else {
        NoSteerAtAll(events);
        UnsteeredKeepsStatus(s, events);
      }
    }
  }

  /** Without a last steering event there is no steering event at all. */
  lemma {:induction false} NoSteerAtAll(events: seq<Event>)
    requires !exists k :: 0 <= k < |events| && Steers(events[k]) && forall j :: k < j < |events| ==> !Steers(events[j])
    ensures forall j :: 0 <= j < |events| ==> !Steers(events[j])
  {
    if events != [] {
      var n := |events| - 1;
      assert !Steers(events[n]);
      var init := events[..n];
      forall k | 0 <= k < |init| && Steers(init[k])
        ensures exists j :: k < j < |init| && Steers(init[j])
      {
        assert events[k] == init[k];
        var j :| k < j < |events| && Steers(events[j]);
        assert init[j] == events[j];
      }
      NoSteerAtAll(init);
      forall j | 0 <= j < |events|
        ensures !Steers(events[j])
      {
        if j < n {
          assert events[j] == init[j];
        }
      }
    }
  }

  class HealthDataViewModel {
    var isRefreshing: bool
    var tripTimeBeforeRest: real
    var elapsedTime: real
    var restNow: bool
    var errorType: Wrappers.Option<HealthError>
    var startTripDate: int
    var canStartTrip: bool
    var tripMessage: string
    var tripMessageColor: Color
    var tripActionButtonText: string
    var tripActionButtonBackground: Color
    var tripStatus: TripState
    /** The calls made on the health provider, oldest first. */
    var requests: seq<ProviderRequest>

    /** The four shown values are those of the current status. */
    predicate DisplayMatchesStatus()
      reads this
    {
      && tripActionButtonText == ButtonText(tripStatus)
      && tripActionButtonBackground == ButtonBackground(tripStatus)
      && tripMessage == Message(tripStatus)
      && tripMessageColor == MessageColor(tripStatus)
    }

    /** The initial values: refreshing, no trip, nothing published yet; the screen shows a new trip. */
    constructor(now: int)
      ensures isRefreshing && tripTimeBeforeRest == 0.0 && elapsedTime == 0.0 && !restNow
      ensures errorType == Wrappers.None && startTripDate == now && !canStartTrip
      ensures tripStatus == None && requests == []
      ensures DisplayMatchesStatus()
    {
      isRefreshing := true;
      tripTimeBeforeRest := 0.0;
      elapsedTime := 0.0;
      restNow := false;
      errorType := Wrappers.None;
      startTripDate := now;
      canStartTrip := false;
      tripMessage := "New Trip";
      tripMessageColor := FadedBlack;
      tripActionButtonText := "Start";
      tripActionButtonBackground := Teal;
      tripStatus := None;
      requests := [];
    }

    /**
     * `toggleTrip`: with no trip, records the start date and asks the provider to start,
     * leaving the status `None`; otherwise asks the provider to stop, sets the status to
     * `None` and zeroes both times. `restNow` and `canStartTrip` are left as they were.
     */
    method ToggleTrip(now: int)
      modifies this
      ensures tripStatus == NextStatus(old(tripStatus), Toggle) == None
      ensures old(tripStatus) == None ==>
                startTripDate == now && requests == old(requests) + [StartTrip]
                && tripTimeBeforeRest == old(tripTimeBeforeRest) && elapsedTime == old(elapsedTime)
      ensures old(tripStatus) != None ==>
                startTripDate == old(startTripDate) && requests == old(requests) + [StopTrip]
                && tripTimeBeforeRest == 0.0 && elapsedTime == 0.0
      ensures restNow == old(restNow) && canStartTrip == old(canStartTrip)
      ensures errorType == old(errorType) && isRefreshing == old(isRefreshing)
      ensures DisplayMatchesStatus()
    {
      if tripStatus == None {
        startTripDate := now;
        requests := requests + [StartTrip];
      } else {
        requests := requests + [StopTrip];
        tripStatus := None;
        tripTimeBeforeRest := 0.0;
        elapsedTime := 0.0;
      }
      RefreshTripPublishedValues();
    }

    /**
     * The time-before-rest subscription: a zero time only disables starting a trip and
     * keeps the stored time; any other time enables it and is stored.
     */
    method OnTripTimeBeforeRest(time: real)
      modifies this
      ensures time == 0.0 ==> !canStartTrip && tripTimeBeforeRest == old(tripTimeBeforeRest)
      ensures time != 0.0 ==> canStartTrip && tripTimeBeforeRest == time
      ensures tripStatus == NextStatus(old(tripStatus), TimeBeforeRest(time))
      ensures elapsedTime == old(elapsedTime) && restNow == old(restNow) && errorType == old(errorType)
      ensures isRefreshing == old(isRefreshing) && startTripDate == old(startTripDate)
      ensures requests == old(requests)
      ensures tripMessage == old(tripMessage) && tripMessageColor == old(tripMessageColor)
      ensures tripActionButtonText == old(tripActionButtonText)
      ensures tripActionButtonBackground == old(tripActionButtonBackground)
    {
      if time == 0.0 {
        canStartTrip := false;
        return;
      }
      canStartTrip := true;
      tripTimeBeforeRest := time;
    }

    /** The elapsed-time subscription: stores the time and marks the trip running, from any status. */
    method OnTripElapsedTime(time: real)
      modifies this
      ensures elapsedTime == time
      ensures tripStatus == NextStatus(old(tripStatus), Elapsed(time)) == Running
      ensures tripTimeBeforeRest == old(tripTimeBeforeRest) && canStartTrip == old(canStartTrip)
      ensures restNow == old(restNow) && errorType == old(errorType)
      ensures isRefreshing == old(isRefreshing) && startTripDate == old(startTripDate)
      ensures requests == old(requests)
      ensures DisplayMatchesStatus()
    {
      elapsedTime := time;
      tripStatus := Running;
      RefreshTripPublishedValues();
    }

    /** The rest subscription: raises `restNow` and marks the trip completed. */
    method OnRestNow()
      modifies this
      ensures restNow
      ensures tripStatus == NextStatus(old(tripStatus), RestNow) == Completed
      ensures tripTimeBeforeRest == old(tripTimeBeforeRest) && elapsedTime == old(elapsedTime)
      ensures canStartTrip == old(canStartTrip) && errorType == old(errorType)
      ensures isRefreshing == old(isRefreshing) && startTripDate == old(startTripDate)
      ensures requests == old(requests)
      ensures DisplayMatchesStatus()
    {
      restNow := true;
      tripStatus := Completed;
      RefreshTripPublishedValues();
    }

    /** The error subscription: stores the error and changes nothing else. */
    method OnError(error: HealthError)
      modifies this
      ensures errorType == Wrappers.Some(error)
      ensures tripStatus == NextStatus(old(tripStatus), Failed(error))
      ensures tripTimeBeforeRest == old(tripTimeBeforeRest) && elapsedTime == old(elapsedTime)
      ensures canStartTrip == old(canStartTrip) && restNow == old(restNow)
      ensures isRefreshing == old(isRefreshing) && startTripDate == old(startTripDate)
      ensures requests == old(requests)
      ensures tripMessage == old(tripMessage) && tripMessageColor == old(tripMessageColor)
      ensures tripActionButtonText == old(tripActionButtonText)
      ensures tripActionButtonBackground == old(tripActionButtonBackground)
    {
      errorType := Wrappers.Some(error);
    }

    /** `refreshTripTime`, the part that runs at once: refreshing, and no error shown. */
    method RefreshTripTime()
      modifies this
      ensures isRefreshing && errorType == Wrappers.None
      ensures tripStatus == NextStatus(old(tripStatus), Refresh)
      ensures tripTimeBeforeRest == old(tripTimeBeforeRest) && elapsedTime == old(elapsedTime)
      ensures canStartTrip == old(canStartTrip) && restNow == old(restNow)
      ensures startTripDate == old(startTripDate) && requests == old(requests)
      ensures tripMessage == old(tripMessage) && tripMessageColor == old(tripMessageColor)
      ensures tripActionButtonText == old(tripActionButtonText)
      ensures tripActionButtonBackground == old(tripActionButtonBackground)
    {
      isRefreshing := true;
      errorType := Wrappers.None;
    }

    /** The deferred part of `refreshTripTime`: asks the provider for the trip time and stops refreshing. */
    method FinishTripTimeRefresh()
      modifies this
      ensures requests == old(requests) + [CalculateTripTime] && !isRefreshing
      ensures tripStatus == old(tripStatus) && errorType == old(errorType)
      ensures tripTimeBeforeRest == old(tripTimeBeforeRest) && elapsedTime == old(elapsedTime)
      ensures canStartTrip == old(canStartTrip) && restNow == old(restNow)
      ensures startTripDate == old(startTripDate)
      ensures tripMessage == old(tripMessage) && tripMessageColor == old(tripMessageColor)
      ensures tripActionButtonText == old(tripActionButtonText)
      ensures tripActionButtonBackground == old(tripActionButtonBackground)
    {
      requests := requests + [CalculateTripTime];
      isRefreshing := false;
    }

    /** `refreshTripPublishedValues`: shows the fixed values of the current status and touches nothing else. */
    method RefreshTripPublishedValues()
      modifies this
      ensures DisplayMatchesStatus()
      ensures tripStatus == old(tripStatus) && requests == old(requests)
      ensures tripTimeBeforeRest == old(tripTimeBeforeRest) && elapsedTime == old(elapsedTime)
      ensures canStartTrip == old(canStartTrip) && restNow == old(restNow)
      ensures errorType == old(errorType) && isRefreshing == old(isRefreshing)
      ensures startTripDate == old(startTripDate)
    {
      match tripStatus
      case Running =>
        tripActionButtonText := "Stop";
        tripActionButtonBackground := Red;
        tripMessage := "Running trip";
        tripMessageColor := Orange;
      case Completed =>
        tripActionButtonText := "Rest Now!";
        tripActionButtonBackground := Blue;
        tripMessage := "Rest now!";
        tripMessageColor := Red;
      case None =>
        tripActionButtonText := "Start";
        tripActionButtonBackground := Teal;
        tripMessage := "New Trip";
        tripMessageColor := FadedBlack;
    }
  }
}
