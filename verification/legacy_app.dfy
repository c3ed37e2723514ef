/** The original single-screen app (src/App.tsx): settings and a minute
    countdown in memory, a screen chosen from the settings, and its own
    copies of the timer start-up and the alert. Each handler returns the new
    state, the timers it starts and the URIs it opens at once; the
    immediate `updateRemainingTime` call is applied to the state. */
module LegacyApp {
  import opened Base
  import opened Types
  import opened AppConstants
  import Timer
  import Alert

  datatype LegacyState = LegacyState(settings: Option<Settings>, remainingTime: int)

  datatype Screen = Onboarding | Setup | Main

  datatype LegacyOutput = LegacyOutput(state: LegacyState, timers: seq<Timer.TimerAction>, opens: seq<Alert.AlertIntent>)

  /** The interval of the minute countdown. */
  const MINUTE_UPDATE_MS: int := 60000

  /** The screen rendered for the given settings. */
  function SelectScreen(settings: Option<Settings>): Screen
  {
    if settings.None? || settings.value.user.None? then Onboarding
    else if |settings.value.contacts| == 0 then Setup
    else Main
  }

  /** `updateRemainingTime`: minutes left, or no change without a check-in.
      Unlike the shared utility it does not test the period. */
  function UpdateRemainingTime(s: Settings, now: int, previous: int): (r: int)
    ensures s.lastCheckIn.None? ==> r == previous
    ensures s.lastCheckIn.Some? ==>
      && r >= 0
      && r * 60000 <= Max(0, s.lastCheckIn.value + s.period * 3600000 - now) < r * 60000 + 60000
  {
    match s.lastCheckIn
    case None => previous
    case Some(lc) =>
      var diff := Max(0, lc + s.period * 60 * 60 * 1000 - now);
      diff / (1000 * 60)
  }

  /** The inline `sendAlert`, with its own subject and body literals. */
  function LegacySendAlert(contacts: seq<Contact>): seq<Alert.AlertIntent>
  {
    var emails := Join(Alert.EmailList(contacts), ',');
    var phones := Join(Alert.PhoneList(contacts), ',');
    (if emails != "" then [Alert.OpenMailto(emails, "Emergency Alert", "The user has not checked in as scheduled.")] else [])
    + (if phones != "" then [Alert.OpenSms(phones, "The user has not checked in as scheduled.")] else [])
  }

  /** The inline `startTimer` decision. */
  function LegacyStartActions(s: Settings, now: int): seq<Timer.TimerAction>
  {
    if s.lastCheckIn.None? || s.period == 0 then []
    else
      var diff := s.lastCheckIn.value + s.period * 60 * 60 * 1000 - now;
      if diff > 0 then [Timer.ScheduleAlert(diff), Timer.CallUpdate, Timer.ScheduleUpdates(MINUTE_UPDATE_MS)]
      else [Timer.CallAlert]
  }

  /** `startTimer(s)` run from state `st`: the timers, the immediate
      countdown update and the immediate alert. */
  function StartTimer(st: LegacyState, s: Settings, now: int): LegacyOutput
  {
    var actions := LegacyStartActions(s, now);
    var updated := if Timer.CallUpdate in actions then st.(remainingTime := UpdateRemainingTime(s, now, st.remainingTime)) else st;
    LegacyOutput(updated, actions, if Timer.CallAlert in actions then LegacySendAlert(s.contacts) else [])
  }

  /** The mount effect with the record storage returned, if any. */
  function Init(loaded: Option<Settings>, now: int): (out: LegacyOutput)
    ensures loaded.None? ==> out == LegacyOutput(LegacyState(None, 0), [], [])
    ensures out.state.settings == loaded
  {
    match loaded
    case None => LegacyOutput(LegacyState(None, 0), [], [])
    case Some(s) => StartTimer(LegacyState(loaded, 0), s, now)
  }

  /** `handleSaveUser`: a fresh record without a period start. */
  function SaveUser(st: LegacyState, user: User): (r: LegacyState)
    ensures r.settings == Some(Settings(Some(user), [], 1, None, None))
    ensures r.remainingTime == st.remainingTime
  {
    st.(settings := Some(Settings(Some(user), [], 1, None, None)))
  }

  /** `handleSave`: contacts, period and the first check-in in one step,
      then the timer is started. */
  function Save(st: LegacyState, contacts: seq<Contact>, period: int, now: int): (out: LegacyOutput)
    ensures st.settings.None? ==> out == LegacyOutput(st, [], [])
    ensures st.settings.Some? ==>
      out.state.settings == Some(st.settings.value.(contacts := contacts, period := period, lastCheckIn := Some(now)))
  {
    match st.settings
    case None => LegacyOutput(st, [], [])
    case Some(s) =>
      var next := s.(contacts := contacts, period := period, lastCheckIn := Some(now));
      StartTimer(st.(settings := Some(next)), next, now)
  }

  /** `handleCheckIn`: only the check-in time changes, then the timer is
      restarted. */
  function CheckIn(st: LegacyState, now: int): (out: LegacyOutput)
    ensures st.settings.None? ==> out == LegacyOutput(st, [], [])
    ensures st.settings.Some? ==> out.state.settings == Some(st.settings.value.(lastCheckIn := Some(now)))
  {
    match st.settings
    case None => LegacyOutput(st, [], [])
    case Some(s) =>
      var next := s.(lastCheckIn := Some(now));
      StartTimer(st.(settings := Some(next)), next, now)
  }

  // ---------------------------------------------------------------------

  /** Every state shows exactly one screen: onboarding without a user, the
      setup form with a user and no contacts, the main screen otherwise. */
  lemma ScreenSelection(settings: Option<Settings>)
    ensures SelectScreen(settings) == Onboarding <==> settings.None? || settings.value.user.None?
    ensures SelectScreen(settings) == Setup <==> settings.Some? && settings.value.user.Some? && |settings.value.contacts| == 0
    ensures SelectScreen(settings) == Main <==> settings.Some? && settings.value.user.Some? && |settings.value.contacts| > 0
  {
  }

  /** The inline alert is the shared `sendAlert`. */
  lemma LegacyAlertIsShared(contacts: seq<Contact>)
    ensures LegacySendAlert(contacts) == Alert.SendAlert(contacts)
  {
  }

  /** The inline timer start-up is the shared `startTimer` with a one-minute
      update interval. */
  lemma LegacyStartIsShared(s: Settings, now: int)
    ensures LegacyStartActions(s, now) == Timer.StartTimer(s, now, MINUTE_UPDATE_MS)
  {
  }

  /** With a period set, the minute countdown agrees with the shared
      `getRemainingTimeMinutes`. */
  lemma UpdateAgreesWithUtility(s: Settings, now: int, previous: int)
    requires s.lastCheckIn.Some? && s.period != 0
    ensures UpdateRemainingTime(s, now, previous) == Timer.GetRemainingTimeMinutes(s, now)
  {
  }

  /** The setup flow: saving the user leads to the setup form; saving a
      non-empty contact list and a period of at least an hour leads to the
      main screen, starts the full countdown in minutes, schedules one alert
      for exactly the end of the period and opens nothing yet. */
  lemma SetupFlow(st: LegacyState, user: User, contacts: seq<Contact>, period: int, now: int)
    requires period >= 1
    ensures SelectScreen(SaveUser(st, user).settings) == Setup
    ensures var out := Save(SaveUser(st, user), contacts, period, now);
      && (SelectScreen(out.state.settings) == Main <==> |contacts| > 0)
      && out.state.remainingTime == period * 60
      && out.timers == [Timer.ScheduleAlert(period * HOUR_TO_MS), Timer.CallUpdate, Timer.ScheduleUpdates(MINUTE_UPDATE_MS)]
      && out.opens == []
  {
  }

  /** A check-in, however late, restarts a full period: nothing is opened
      and the countdown shows the whole period again. */
  lemma CheckInRestartsPeriod(st: LegacyState, now: int)
    requires st.settings.Some? && st.settings.value.period >= 1
    ensures var out := CheckIn(st, now);
      && out.opens == []
      && out.state.remainingTime == st.settings.value.period * 60
      && Timer.AlertCount(out.timers) == 1
  {
    var out := CheckIn(st, now);
    Timer.StartTimerPlan(out.state.settings.value, now, MINUTE_UPDATE_MS);
  }

  /** Loading settings whose deadline has passed alerts the contacts at
      once, with the shared alert. */
  lemma OverdueLoadAlerts(s: Settings, now: int)
    requires s.lastCheckIn.Some? && s.period != 0
    requires s.lastCheckIn.value + s.period * HOUR_TO_MS <= now
    ensures Init(Some(s), now).opens == Alert.SendAlert(s.contacts)
    ensures Init(Some(s), now).timers == [Timer.CallAlert]
  {
  }
}
