/** The home screen's load-and-setup hook (src/hooks/useAppInitialization.ts):
    reconciling in-memory state with what storage returned, and the setup
    handlers that build the settings record step by step. Storage itself is
    a parameter: a load is described by its outcome, a save by the record
    written. */
module AppInitialization {
  import opened Base
  import opened Types
  import opened Deadline
  import CheckInTimer

  datatype InitState = InitState(
    settings: Option<Settings>,
    hasSeenWelcome: bool,
    loaded: bool,
    initialRemaining: int,
    initialAlertFired: bool)

  /** The hook's `useState` initial values. */
  const Fresh: InitState := InitState(None, false, false, 0, false)

  /** The value the welcome flag is stored as once the welcome was seen. */
  const WELCOME_SEEN: string := "true"

  /** What the two storage reads returned, or that one of them failed. */
  datatype LoadOutcome = Loaded(stored: Option<Settings>, welcomeFlag: Option<string>) | LoadFailed

  /** The countdown values computed on load: armed settings give the whole
      seconds left and "fired" exactly when none are left; anything else
      gives 0 and not fired. */
  function LoadTimerValues(stored: Option<Settings>, now: int): (r: (int, bool))
    ensures r.0 >= 0
    ensures r.1 ==> r.0 == 0
    ensures !(stored.Some? && Armed(stored.value)) ==> r == (0, false)
    ensures stored.Some? && Armed(stored.value) ==>
      && r.0 == SecondsLeft(DeadlineOf(stored.value.lastCheckIn.value, stored.value.period), now)
      && (r.1 <==> r.0 == 0)
  {
    match stored
    case Some(s) =>
      if Armed(s) then
        var secs := SecondsLeft(DeadlineOf(s.lastCheckIn.value, s.period), now);
        (secs, secs <= 0)
      else (0, false)
    case None => (0, false)
  }

  /** One focus-triggered load at time `now`. A load that completes after
      the screen lost focus (`cancelled`) changes nothing; a failed load
      changes nothing but `loaded`. */
  function Reconcile(prev: InitState, outcome: LoadOutcome, cancelled: bool, now: int): (r: InitState)
    ensures cancelled ==> r == prev
    ensures !cancelled ==> r.loaded
    ensures outcome.LoadFailed? ==> r.(loaded := prev.loaded) == prev
    ensures !cancelled && outcome.Loaded? ==> r.settings == outcome.stored
  {
    if cancelled then prev
    else
      match outcome
      case LoadFailed => prev.(loaded := true)
      case Loaded(stored, flag) =>
        var (secs, fired) := LoadTimerValues(stored, now);
        InitState(stored, flag == Some(WELCOME_SEEN), true, secs, fired)
  }

  /** `handleGetStarted`: the new state and the welcome flag it stores. */
  function GetStarted(st: InitState): (r: (InitState, string))
    ensures r.0.hasSeenWelcome
    ensures r.0.(hasSeenWelcome := st.hasSeenWelcome) == st
  {
    (st.(hasSeenWelcome := true), WELCOME_SEEN)
  }

  /** `handleSaveUser`: a fresh record for `user`, whatever was there; the
      record is also what gets stored. */
  function SaveUser(st: InitState, user: User): (r: InitState)
    ensures r.settings.Some? && r.settings.value.user == Some(user)
    ensures r.settings.value.contacts == [] && r.settings.value.period == 1
    ensures !Armed(r.settings.value)
    ensures r.settings.value.lastCheckIn.None? && r.settings.value.setupComplete == Some(false)
    ensures r.(settings := st.settings) == st
  {
    st.(settings := Some(Settings(Some(user), [], 1, None, Some(false))))
  }

  /** `handleSaveContacts`: replaces only the contacts, unvalidated. */
  function SaveContacts(st: InitState, contacts: seq<Contact>): (r: InitState)
    ensures st.settings.None? ==> r == st
    ensures st.settings.Some? ==> r.settings == Some(st.settings.value.(contacts := contacts))
    ensures r.(settings := st.settings) == st
  {
    match st.settings
    case None => st
    case Some(s) => st.(settings := Some(s.(contacts := contacts)))
  }

  /** `handlePeriodSave` at time `now`: sets the period, starts the first
      countdown and marks setup complete; the period is not range-checked. */
  function PeriodSave(st: InitState, period: int, now: int): (r: InitState)
    ensures st.settings.None? ==> r == st
    ensures st.settings.Some? ==>
      && r.settings.Some?
      && r.settings.value.user == st.settings.value.user
      && r.settings.value.contacts == st.settings.value.contacts
      && r.settings.value.period == period
      && r.settings.value.lastCheckIn == Some(now)
      && r.settings.value.setupComplete == Some(true)
    ensures r.(settings := st.settings) == st
  {
    match st.settings
    case None => st
    case Some(s) => st.(settings := Some(s.(period := period, lastCheckIn := Some(now), setupComplete := Some(true))))
  }

  // ---------------------------------------------------------------------

  /** Loading reports a breach exactly when stored armed settings have less
      than one whole second left. */
  lemma LoadedBreach(prev: InitState, s: Settings, flag: Option<string>, now: int)
    ensures var r := Reconcile(prev, Loaded(Some(s), flag), false, now);
      r.initialAlertFired <==> Armed(s) && DeadlineOf(s.lastCheckIn.value, s.period) - now < 1000
  {
    if Armed(s) {
      BreachBoundary(DeadlineOf(s.lastCheckIn.value, s.period), now);
    }
  }

  /** The welcome flag is read back as seen exactly when it is the stored
      string "true", so the flag `GetStarted` stores survives a reload. */
  lemma WelcomeFlagRoundTrip(st: InitState, prev: InitState, stored: Option<Settings>, flag: Option<string>, now: int)
    ensures Reconcile(prev, Loaded(stored, flag), false, now).hasSeenWelcome <==> flag == Some("true")
    ensures Reconcile(prev, Loaded(stored, Some(GetStarted(st).1)), false, now).hasSeenWelcome
  {
  }

  /** The countdown values computed on load are those the countdown hook's
      own sync computes for the same settings from its mount state, so
      either may run first. */
  lemma LoadAgreesWithTimerSync(prev: InitState, stored: Option<Settings>, flag: Option<string>, now: int)
    ensures var r := Reconcile(prev, Loaded(stored, flag), false, now);
      var synced := CheckInTimer.SyncAsWritten(CheckInTimer.Initial, stored, now).state;
      r.initialRemaining == synced.remainingSeconds && r.initialAlertFired == synced.alertFired
  {
  }

  /** The settings records the setup flow can produce: whenever setup is
      marked complete there is a first check-in and a period of at least
      an hour. */
  predicate WellFormed(st: InitState)
  {
    st.settings.Some? && st.settings.value.setupComplete == Some(true) ==>
      st.settings.value.lastCheckIn.Some? && st.settings.value.period >= 1
  }

  /** Every setup handler keeps the settings well formed, given a period
      the period screen can produce. */
  lemma HandlersKeepWellFormed(st: InitState, user: User, contacts: seq<Contact>, period: int, now: int)
    requires WellFormed(st)
    ensures WellFormed(SaveUser(st, user))
    ensures WellFormed(SaveContacts(st, contacts))
    ensures WellFormed(GetStarted(st).0)
    ensures period >= 1 ==> WellFormed(PeriodSave(st, period, now))
  {
  }

  /** Saving contacts neither arms nor disarms the switch. */
  lemma SaveContactsKeepsArming(st: InitState, contacts: seq<Contact>)
    requires st.settings.Some?
    ensures Armed(SaveContacts(st, contacts).settings.value) <==> Armed(st.settings.value)
  {
  }

  /** The whole setup flow from a reset home screen: saving the user, the
      contacts and a period of `p` hours at `now` arms the switch with the
      chosen contacts, and the countdown hook, fed each new record in turn,
      shows the full period with no alert. */
  lemma SetupFlow(st: InitState, user: User, contacts: seq<Contact>, p: int, now: int)
    requires p >= 1
    ensures var done := PeriodSave(SaveContacts(SaveUser(st, user), contacts), p, now);
      && done.settings == Some(Settings(Some(user), contacts, p, Some(now), Some(true)))
      && Armed(done.settings.value)
    ensures var s1 := SaveUser(st, user).settings;
      var s2 := SaveContacts(SaveUser(st, user), contacts).settings;
      var s3 := PeriodSave(SaveContacts(SaveUser(st, user), contacts), p, now).settings;
      var evs := [CheckInTimer.SettingsChanged(s1, now), CheckInTimer.SettingsChanged(s2, now),
                  CheckInTimer.SettingsChanged(s3, now)];
      var run := CheckInTimer.Run(CheckInTimer.Initial, evs, true);
      run.0.remainingSeconds == p * 3600 && !run.0.alertFired && run.1 == []
  {
    var s1 := SaveUser(st, user).settings;
    var s2 := SaveContacts(SaveUser(st, user), contacts).settings;
    var s3 := PeriodSave(SaveContacts(SaveUser(st, user), contacts), p, now).settings;
    var evs := [CheckInTimer.SettingsChanged(s1, now), CheckInTimer.SettingsChanged(s2, now),
                CheckInTimer.SettingsChanged(s3, now)];
    FullPeriodAtCheckIn(now, p);
    var a := CheckInTimer.TimerState(s1, 0, false);
    var b := CheckInTimer.TimerState(s2, 0, false);
    var c := CheckInTimer.TimerState(s3, p * 3600, false);
    assert CheckInTimer.StepWith(CheckInTimer.Initial, evs[0], true).state == a;
    assert CheckInTimer.StepWith(a, evs[1], true).state == b;
    assert CheckInTimer.StepWith(b, evs[2], true) == CheckInTimer.StepOutput(c, None, None);
    assert evs[1..][1..][1..] == [];
    assert CheckInTimer.Run(c, evs[1..][1..][1..], true).0 == c;
    assert CheckInTimer.Run(b, evs[1..][1..], true).0 == c && CheckInTimer.Run(b, evs[1..][1..], true).1 == [];
    assert CheckInTimer.Run(a, evs[1..], true).0 == c && CheckInTimer.Run(a, evs[1..], true).1 == [];
  }
}
