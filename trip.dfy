/**
 * A trip (Trip): it starts at a date, remembers the last sleep session before it, and
 * is due for a rest after one and a half times that session's sleep.
 *
 * Dates are seconds since the epoch; the interval until rest is a real number of seconds
 * because the sleep duration is scaled by 1.5.
 */
module Trips {
  import opened Wrappers
  import opened SleepStages
  import opened SleepSessions
  import DateIntervals

  class Trip {
    var startDate: Option<int>
    var lastSleepSession: Option<SleepSession>
    var intervalUntilRest: real

    /** A trip that has not started: no date, no session, no interval. */
    constructor()
      ensures startDate == None && lastSleepSession == None && intervalUntilRest == 0.0
      ensures RestDate() == None
    {
      startDate := None;
      lastSleepSession := None;
      intervalUntilRest := 0.0;
    }

    /** `restDate`: absent until the trip has a start date, then the start plus the interval. */
    function RestDate(): (r: Option<real>)
      reads this
      ensures r.Some? <==> startDate.Some?
      ensures r.Some? ==> r.value - intervalUntilRest == startDate.value as real
    {
      match startDate
      case None => None
      case Some(d) => Some(d as real + intervalUntilRest)
    }

    /**
     * `start(date:lastSleep:)`: overwrites the start date, the session and the interval,
     * whatever an earlier start left behind. The guard of `calculateRestInterval` always
     * passes here, so the rest date is the start plus 1.5 times the session's sleep, and
     * it is never before the start when that sleep is not negative.
     */
    method Start(date: int, lastSleep: SleepSession)
      modifies this
      ensures startDate == Some(date) && lastSleepSession == Some(lastSleep)
      ensures intervalUntilRest == 1.5 * lastSleep.totalSleepDuration as real
      ensures RestDate() == Some(date as real + 1.5 * lastSleep.totalSleepDuration as real)
      ensures lastSleep.totalSleepDuration >= 0 ==> RestDate().value >= date as real
    {
      startDate := Some(date);
      lastSleepSession := Some(lastSleep);
      CalculateRestInterval();
    }

    /**
     * `calculateRestInterval`: sets the interval from the remembered session when both a
     * start date and a session are present, and otherwise changes nothing.
     */
    method CalculateRestInterval()
      modifies this
      ensures startDate == old(startDate) && lastSleepSession == old(lastSleepSession)
      ensures old(startDate).Some? && old(lastSleepSession).Some? ==>
                intervalUntilRest == 1.5 * old(lastSleepSession).value.totalSleepDuration as real
      ensures old(startDate).None? || old(lastSleepSession).None? ==>
                intervalUntilRest == old(intervalUntilRest)
    {
      if startDate.None? || lastSleepSession.None? {
        return;
      }
      intervalUntilRest := 1.5 * lastSleepSession.value.totalSleepDuration as real;
    }
  }

  /**
   * A session whose segments all end no earlier than they start sleeps a non-negative
   * time, so a trip started after it has its rest date no earlier than its start date.
   */
  lemma {:induction false} SleepNotNegative(segs: seq<SleepStage>, fine: bool)
    requires forall s :: s in segs ==> s.startDate <= s.endDate
    ensures TotalSleepDuration(segs, fine) >= 0
  {
    var ivs := ActiveIntervals(segs, fine);
    forall iv | iv in ivs
      ensures iv.WellFormed()
    {
      var s :| s in segs && IntervalOf(s) == iv;
    }
    DateIntervals.TotalNonNegative(ivs);
  }
}
