/** The countdown hook (src/hooks/useCheckInTimer.ts) as a transition
    system. The state is the current `settings` prop together with
    `(remainingSeconds, alertFired)`; the events are a new `settings` prop
    (which runs the sync effect), one ticker callback, and the check-in and
    dismiss handlers. The clock is the `now` each event carries. Each step
    reports the contacts an alert was dispatched to, so a run yields the
    dispatch log. */
module CheckInTimer {
  import opened Base
  import opened Types
  import opened AppConstants
  import opened Deadline
  import Alert

  datatype TimerState = TimerState(settings: Option<Settings>, remainingSeconds: int, alertFired: bool)

  datatype TimerEvent =
    | SettingsChanged(next: Option<Settings>, now: int)
    | Tick(now: int)
    | CheckIn(now: int)
    | Dismiss(now: int)

  /** The state after one event, the contacts `sendAlert` was called with
      (if it was), and the check-in time handed back to the caller (if any). */
  datatype StepOutput = StepOutput(state: TimerState, dispatched: Option<seq<Contact>>, checkedInAt: Option<int>)

  /** The state the home screen mounts the hook with: before storage has
      loaded, `settings` is null and the initial values are 0 and false. */
  const Initial: TimerState := TimerState(None, 0, false)

  /** The ticker's interval exists only while armed and not yet fired. */
  predicate TickerRunning(st: TimerState)
  {
    st.settings.Some? && Armed(st.settings.value) && !st.alertFired
  }

  function SecondsLeftFor(s: Settings, now: int): nat
    requires s.lastCheckIn.Some?
  {
    SecondsLeft(DeadlineOf(s.lastCheckIn.value, s.period), now)
  }

  /** The sync effect as the source writes it: null settings reset the
      countdown; unarmed settings change nothing; armed settings set the
      remaining seconds and, on a breach, mark the alert as fired without
      sending it. */
  function SyncAsWritten(st: TimerState, next: Option<Settings>, now: int): (out: StepOutput)
    ensures out.dispatched.None? && out.checkedInAt.None?
    ensures out.state.settings == next
    ensures next.None? ==> out.state.remainingSeconds == 0 && !out.state.alertFired
    ensures next.Some? && !Armed(next.value) ==> out.state == st.(settings := next)
    ensures next.Some? && st.alertFired ==> out.state.alertFired
    ensures next.Some? && Armed(next.value) ==>
      && out.state.remainingSeconds == SecondsLeftFor(next.value, now)
      && (out.state.alertFired <==> st.alertFired || SecondsLeftFor(next.value, now) == 0)
  {
    var st1 := st.(settings := next);
    match next
    case None => StepOutput(st1.(remainingSeconds := 0, alertFired := false), None, None)
    case Some(s) =>
      if !Armed(s) then StepOutput(st1, None, None)
      else
        var secs := SecondsLeftFor(s, now);
        StepOutput(st1.(remainingSeconds := secs, alertFired := if secs <= 0 then true else st.alertFired), None, None)
  }

  /** The sync effect with the alert sent when it is the one to notice the
      breach, as the ticker does; see "Findings" in the README. */
  function Sync(st: TimerState, next: Option<Settings>, now: int): (out: StepOutput)
    ensures out.checkedInAt.None?
    ensures out.state == SyncAsWritten(st, next, now).state
    ensures out.dispatched.Some? <==> next.Some? && Armed(next.value) && !st.alertFired && SecondsLeftFor(next.value, now) == 0
    ensures out.dispatched.Some? ==> out.dispatched.value == next.value.contacts
    ensures next.Some? && Armed(next.value) ==>
      && out.state.remainingSeconds == SecondsLeftFor(next.value, now)
      && (out.state.alertFired <==> st.alertFired || SecondsLeftFor(next.value, now) == 0)
  {
    var written := SyncAsWritten(st, next, now);
    match next
    case None => written
    case Some(s) =>
      if Armed(s) && !st.alertFired && SecondsLeftFor(s, now) == 0 then written.(dispatched := Some(s.contacts))
      else written
  }

  /** One ticker callback. */
  function TickStep(st: TimerState, now: int): (out: StepOutput)
    ensures out.checkedInAt.None?
    ensures !TickerRunning(st) ==> out.state == st && out.dispatched.None?
  {
    if !TickerRunning(st) then StepOutput(st, None, None)
    else
      var s := st.settings.value;
      var secs := SecondsLeftFor(s, now);
      if secs <= 0 then StepOutput(st.(alertFired := true), Some(s.contacts), None)
      else StepOutput(st.(remainingSeconds := secs), None, None)
  }

  /** `handleCheckIn` as the source writes it. The hook hands the check-in
      time back for its caller to store, but the home screen discards it, so
      the `settings` the hook keeps counting against are not changed. */
  function HandleCheckInAsWritten(st: TimerState, now: int): (out: StepOutput)
    ensures out.dispatched.None?
    ensures out.state.settings == st.settings
    ensures st.settings.None? ==> out.state == st && out.checkedInAt.None?
    ensures st.settings.Some? ==> !out.state.alertFired && out.checkedInAt == Some(now)
    ensures st.settings.Some? ==> out.state.remainingSeconds == st.settings.value.period * 3600
  {
    match st.settings
    case None => StepOutput(st, None, None)
    case Some(s) => StepOutput(st.(remainingSeconds := s.period * 3600, alertFired := false), None, Some(now))
  }

  /** `handleCheckIn` with the returned check-in time stored in `settings`,
      as the hook's own note says its caller should; see "Findings". */
  function HandleCheckIn(st: TimerState, now: int): (out: StepOutput)
    ensures out.dispatched.None?
    ensures out.checkedInAt == HandleCheckInAsWritten(st, now).checkedInAt
    ensures st.settings.None? ==> out.state == st
    ensures st.settings.Some? ==>
      && out.state.settings == Some(st.settings.value.(lastCheckIn := Some(now)))
      && out.state.remainingSeconds == st.settings.value.period * 3600
      && !out.state.alertFired
  {
    var written := HandleCheckInAsWritten(st, now);
    match st.settings
    case None => written
    case Some(s) => written.(state := written.state.(settings := Some(s.(lastCheckIn := Some(now)))))
  }

  /** One event; `fixed` selects the corrected sync and check-in. */
  function StepWith(st: TimerState, e: TimerEvent, fixed: bool): StepOutput
  {
    match e
    case SettingsChanged(next, now) => if fixed then Sync(st, next, now) else SyncAsWritten(st, next, now)
    case Tick(now) => TickStep(st, now)
    case CheckIn(now) => if fixed then HandleCheckIn(st, now) else HandleCheckInAsWritten(st, now)
    case Dismiss(now) => if fixed then HandleCheckIn(st, now) else HandleCheckInAsWritten(st, now)
  }

  /** The hook mounted with the given props: `useState` takes the initial
      values, then the sync effect runs once. */
  function Mount(settings: Option<Settings>, initialRemaining: int, initialAlertFired: bool, now: int, fixed: bool): StepOutput
  {
    StepWith(TimerState(settings, initialRemaining, initialAlertFired), SettingsChanged(settings, now), fixed)
  }

  /** The final state and the dispatch log of a run of events. */
  function Run(st: TimerState, evs: seq<TimerEvent>, fixed: bool): (TimerState, seq<seq<Contact>>)
    decreases |evs|
  {
    if |evs| == 0 then (st, [])
    else
      var out := StepWith(st, evs[0], fixed);
      var rest := Run(out.state, evs[1..], fixed);
      (rest.0, (if out.dispatched.Some? then [out.dispatched.value] else []) + rest.1)
  }

  /** Events that end an unbroken breach: a check-in, a dismissal, or the
      settings being cleared. */
  predicate EndsBreach(e: TimerEvent)
  {
    e.CheckIn? || e.Dismiss? || (e.SettingsChanged? && e.next.None?)
  }

  // ---------------------------------------------------------------------
  // Single steps

  /** A tick while running either counts down, changing nothing but the
      remaining seconds (which stay positive), or, once less than a second
      is left, dispatches the alert to the current contacts, marks it fired
      and leaves the remaining seconds as they were. */
  lemma TickEffects(st: TimerState, now: int)
    requires TickerRunning(st)
    ensures var out := TickStep(st, now);
      var s := st.settings.value;
      var breach := DeadlineOf(s.lastCheckIn.value, s.period) - now < 1000;
      && (breach ==> out.state == st.(alertFired := true) && out.dispatched == Some(s.contacts))
      && (!breach ==> out.state == st.(remainingSeconds := SecondsLeftFor(s, now))
                      && out.state.remainingSeconds >= 1 && out.dispatched.None?)
  {
    var s := st.settings.value;
    BreachBoundary(DeadlineOf(s.lastCheckIn.value, s.period), now);
  }

  /** Dismissing is checking in. */
  lemma DismissIsCheckIn(st: TimerState, now: int, fixed: bool)
    ensures StepWith(st, Dismiss(now), fixed) == StepWith(st, CheckIn(now), fixed)
  {
  }

  /** Only a tick ever dispatches in the source, and only while the alert
      has not fired; it then marks the alert fired. */
  lemma DispatchOnlyWhenNotFired(st: TimerState, e: TimerEvent, fixed: bool)
    requires StepWith(st, e, fixed).dispatched.Some?
    ensures !st.alertFired && StepWith(st, e, fixed).state.alertFired
    ensures !fixed ==> e.Tick?
  {
  }

  /** Apart from the events that end a breach, nothing clears a fired alert. */
  lemma FiredStaysFired(st: TimerState, e: TimerEvent, fixed: bool)
    requires st.alertFired && !EndsBreach(e)
    ensures StepWith(st, e, fixed).state.alertFired
    ensures StepWith(st, e, fixed).dispatched.None?
  {
  }

  // ---------------------------------------------------------------------
  // Runs

  /** The alert is dispatched at most once per unbroken breach: in a run
      without check-in, dismissal or cleared settings, at most one dispatch
      happens, and none at all if the alert had already fired. */
  lemma {:induction false} AtMostOneDispatch(st: TimerState, evs: seq<TimerEvent>, fixed: bool)
    requires forall i :: 0 <= i < |evs| ==> !EndsBreach(evs[i])
    ensures |Run(st, evs, fixed).1| <= (if st.alertFired then 0 else 1)
    ensures st.alertFired ==> Run(st, evs, fixed).0.alertFired
    decreases |evs|
  {
    if |evs| > 0 {
      var out := StepWith(st, evs[0], fixed);
      AtMostOneDispatch(out.state, evs[1..], fixed);
      if out.dispatched.Some? {
        DispatchOnlyWhenNotFired(st, evs[0], fixed);
      }
      if st.alertFired {
        FiredStaysFired(st, evs[0], fixed);
      }
    }
  }

  /** Whether an alert has been dispatched since the alert flag was last
      clear, updated by one step. */
  function NotifiedAfter(notified: bool, out: StepOutput): bool
  {
    out.state.alertFired && (notified || out.dispatched.Some?)
  }

  function RunNotified(st: TimerState, notified: bool, evs: seq<TimerEvent>, fixed: bool): bool
    decreases |evs|
  {
    if |evs| == 0 then notified
    else
      var out := StepWith(st, evs[0], fixed);
      RunNotified(out.state, NotifiedAfter(notified, out), evs[1..], fixed)
  }

  /** The tracker only becomes true through a dispatch in the log. */
  lemma {:induction false} NotifiedMeansLogged(st: TimerState, evs: seq<TimerEvent>, fixed: bool)
    requires RunNotified(st, false, evs, fixed)
    ensures |Run(st, evs, fixed).1| >= 1
    decreases |evs|
  {
    if |evs| > 0 {
      var out := StepWith(st, evs[0], fixed);
      if out.dispatched.None? {
        NotifiedMeansLogged(out.state, evs[1..], fixed);
      }
    }
  }

  /** With the corrected sync, a fired alert always has a dispatch behind it:
      every step keeps "fired implies notified". */
  lemma {:induction false} FiredImpliesNotified(st: TimerState, notified: bool, evs: seq<TimerEvent>)
    requires st.alertFired ==> notified
    ensures Run(st, evs, true).0.alertFired ==> RunNotified(st, notified, evs, true)
    decreases |evs|
  {
    if |evs| > 0 {
      var out := StepWith(st, evs[0], true);
      FiredImpliesNotified(out.state, NotifiedAfter(notified, out), evs[1..]);
    }
  }

  /** From the mounted state, whenever the corrected hook reports the alert
      as fired, the contacts have been sent it. */
  lemma FiredFromMountIsNotified(evs: seq<TimerEvent>)
    requires Run(Initial, evs, true).0.alertFired
    ensures |Run(Initial, evs, true).1| >= 1
  {
    FiredImpliesNotified(Initial, false, evs);
    NotifiedMeansLogged(Initial, evs, true);
  }

  /** A record armed an hour after the epoch, with one contact. */
  function SampleSettings(): Settings
  {
    Settings(Some(User("Ann", "", "")), [Contact("Bob", "555-1234", "")], 1, Some(0), Some(true))
  }

  /** As written, a breach first noticed by the sync effect (for example the
      settings loaded after the app was closed past its deadline) marks the
      alert fired, so the ticker never starts and no alert is ever sent,
      while the alert-fired screen tells the user the contacts were
      notified. */
  lemma SilentBreachAsWritten()
    ensures var evs := [SettingsChanged(Some(SampleSettings()), 2 * HOUR_TO_MS),
                        Tick(2 * HOUR_TO_MS + 1000), Tick(2 * HOUR_TO_MS + 2000)];
      && Run(Initial, evs, false).0.alertFired
      && Run(Initial, evs, false).1 == []
    ensures Run(Initial, [SettingsChanged(Some(SampleSettings()), 2 * HOUR_TO_MS)], true).1
         == [SampleSettings().contacts]
  {
    var s := SampleSettings();
    var evs := [SettingsChanged(Some(s), 2 * HOUR_TO_MS), Tick(2 * HOUR_TO_MS + 1000), Tick(2 * HOUR_TO_MS + 2000)];
    assert SecondsLeftFor(s, 2 * HOUR_TO_MS) == 0;
    var fired := TimerState(Some(s), 0, true);
    assert StepWith(Initial, evs[0], false) == StepOutput(fired, None, None);
    assert evs[1..][1..] == [Tick(2 * HOUR_TO_MS + 2000)];
    assert !TickerRunning(fired);
    assert evs[1..][1..][1..] == [];
    assert StepWith(fired, evs[1..][1..][0], false) == StepOutput(fired, None, None);
    assert Run(fired, evs[1..][1..][1..], false) == (fired, []);
    assert Run(fired, evs[1..][1..], false).0 == fired && Run(fired, evs[1..][1..], false).1 == [];
    assert Run(fired, evs[1..], false).0 == fired && Run(fired, evs[1..], false).1 == [];
    var one := [SettingsChanged(Some(s), 2 * HOUR_TO_MS)];
    assert StepWith(Initial, one[0], true) == StepOutput(fired, Some(s.contacts), None);
    assert Run(fired, one[1..], true) == (fired, []);
  }

  /** As written, checking in after a breach does not move the deadline: the
      next tick, one second later, sends the alert again. */
  lemma CheckInKeepsOldDeadlineAsWritten()
    ensures var st := TimerState(Some(SampleSettings()), 0, true);
      var evs := [CheckIn(2 * HOUR_TO_MS), Tick(2 * HOUR_TO_MS + 1000)];
      Run(st, evs, false).1 == [SampleSettings().contacts]
  {
    var s := SampleSettings();
    var st := TimerState(Some(s), 0, true);
    var evs := [CheckIn(2 * HOUR_TO_MS), Tick(2 * HOUR_TO_MS + 1000)];
    var checkedIn := TimerState(Some(s), 3600, false);
    assert StepWith(st, evs[0], false) == StepOutput(checkedIn, None, Some(2 * HOUR_TO_MS));
    assert SecondsLeftFor(s, 2 * HOUR_TO_MS + 1000) == 0;
    var refired := TimerState(Some(s), 3600, true);
    assert StepWith(checkedIn, evs[1], false) == StepOutput(refired, Some(s.contacts), None);
    assert evs[1..][1..] == [];
    assert evs[1..][0] == evs[1];
    assert Run(refired, evs[1..][1..], false).1 == [];
    assert Run(checkedIn, evs[1..], false).1 == [s.contacts];
  }

  /** With the check-in stored, no tick dispatches before the new deadline:
      while a whole second of the fresh period is left, ticks only count
      down. */
  lemma NoAlertBeforeNewDeadline(st: TimerState, now: int, t: int)
    requires st.settings.Some? && st.settings.value.period >= 1
    requires t <= now + st.settings.value.period * HOUR_TO_MS - 1000
    ensures TickStep(HandleCheckIn(st, now).state, t).dispatched.None?
  {
    var s := HandleCheckIn(st, now).state.settings.value;
    BreachBoundary(DeadlineOf(now, s.period), t);
  }

  /** The alert a breach tick sends is `sendAlert` of the contacts of the
      settings being counted against. */
  lemma DispatchedAlertIntents(st: TimerState, now: int)
    requires TickStep(st, now).dispatched.Some?
    ensures Alert.SendAlert(TickStep(st, now).dispatched.value) == Alert.SendAlert(st.settings.value.contacts)
  {
  }
}
