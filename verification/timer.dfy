/** The check-in time helpers and the timer start-up decision
    (src/utils/timer.ts). The clock is the parameter `now` (milliseconds);
    timers and callbacks become the list of actions taken at start-up. */
module Timer {
  import opened Base
  import opened Types
  import opened AppConstants

  /** `getCheckInTime(settings)`: the deadline, or none when there is no
      check-in or the period is 0. */
  function GetCheckInTime(s: Settings): (r: Option<int>)
    ensures r.None? <==> s.lastCheckIn.None? || s.period == 0
    ensures r.Some? ==> r.value - s.lastCheckIn.value == s.period * 3600 * 1000
  {
    if s.lastCheckIn.None? || s.period == 0 then None
    else Some(s.lastCheckIn.value + s.period * HOUR_TO_MS)
  }

  /** `getRemainingTimeMinutes(settings)`: whole minutes to the deadline,
      0 when there is none or it has passed. */
  function GetRemainingTimeMinutes(s: Settings, now: int): (mins: nat)
    ensures GetCheckInTime(s).None? ==> mins == 0
    ensures GetCheckInTime(s).Some? ==>
      mins * MINUTE_TO_MS <= Max(0, GetCheckInTime(s).value - now) < (mins + 1) * MINUTE_TO_MS
  {
    match GetCheckInTime(s)
    case None => 0
    case Some(deadline) =>
      var diff := Max(0, deadline - now);
      diff / (1000 * 60)
  }

  /** What `startTimer` does at once. */
  datatype TimerAction =
    | CallAlert                          // onAlert() called immediately
    | ScheduleAlert(delayMs: int)        // one timeout that will call onAlert()
    | CallUpdate                         // onUpdate() called immediately
    | ScheduleUpdates(intervalMs: int)   // an interval that calls onUpdate()

  /** `startTimer(settings, onAlert, onUpdate)`; `updateIntervalMs` stands
      for UPDATE_INTERVAL_MS, which src/constants/app.ts does not define. */
  function StartTimer(s: Settings, now: int, updateIntervalMs: int): (actions: seq<TimerAction>)
  {
    match GetCheckInTime(s)
    case None => []
    case Some(deadline) =>
      var diff := deadline - now;
      if diff > 0 then [ScheduleAlert(diff), CallUpdate, ScheduleUpdates(updateIntervalMs)]
      else [CallAlert]
  }

  function AlertCount(actions: seq<TimerAction>): nat
  {
    if |actions| == 0 then 0
    else (if actions[0].CallAlert? || actions[0].ScheduleAlert? then 1 else 0) + AlertCount(actions[1..])
  }

  /** Without a deadline nothing happens; with one, exactly one alert is
      arranged, immediately when the deadline is not in the future and
      otherwise by a single timeout that expires exactly at the deadline,
      in which case one immediate update is made and the repeating update
      is scheduled at the given interval. */
  lemma StartTimerPlan(s: Settings, now: int, updateIntervalMs: int)
    ensures var actions := StartTimer(s, now, updateIntervalMs);
      && (GetCheckInTime(s).None? ==> actions == [])
      && (GetCheckInTime(s).Some? ==> AlertCount(actions) == 1)
      && (GetCheckInTime(s).Some? && GetCheckInTime(s).value <= now ==> actions == [CallAlert])
      && (forall k :: 0 <= k < |actions| && actions[k].ScheduleAlert? ==>
            actions[k].delayMs > 0 && now + actions[k].delayMs == GetCheckInTime(s).value)
      && (CallUpdate in actions <==> GetCheckInTime(s).Some? && GetCheckInTime(s).value > now)
      && (GetCheckInTime(s).Some? && GetCheckInTime(s).value > now ==>
            actions == [ScheduleAlert(GetCheckInTime(s).value - now), CallUpdate, ScheduleUpdates(updateIntervalMs)])
  {
    var actions := StartTimer(s, now, updateIntervalMs);
    if |actions| == 3 {
      assert actions[1..][1..][1..] == [];
      assert AlertCount(actions[1..][1..]) == 0;
      assert AlertCount(actions[1..]) == 0;
    } else if |actions| == 1 {
      assert AlertCount(actions[1..]) == 0;
    }
  }

  /** An immediate alert is only raised when the minute countdown already
      shows 0. */
  lemma ImmediateAlertShowsZero(s: Settings, now: int, updateIntervalMs: int)
    requires CallAlert in StartTimer(s, now, updateIntervalMs)
    ensures GetRemainingTimeMinutes(s, now) == 0
  {
  }
}
