# checkup — a Dafny model of the check-in deadline engine

`checkup` is a React Native "dead-man's switch". The user names emergency
contacts and picks a check-in period. Each check-in starts a new period. If a
period runs out without a check-in, the app opens a `mailto:` URI and an
`sms:` URI addressed to the contacts. This project models that engine and the
pure input and display logic around it. It then proves properties of the model.

Every clock reading is an integer millisecond timestamp `now`, passed in as a
parameter. Every React `useState` hook becomes a field of an immutable
record. Every handler becomes a pure function from the old record to the new
one. Side effects are returned as data:

- the URIs the alert opens (`Alert.AlertIntent`);
- the timers a start-up schedules (`Timer.TimerAction`);
- the contacts each countdown step sends the alert to (`CheckInTimer.StepOutput.dispatched`).

Module layout, following the source:

| module | source |
|---|---|
| `Base`, `Text` | JavaScript array and string built-ins the code relies on (`filter`, `map`, `join`, `trim`, `toLowerCase`, `includes`, `padStart`, `String(n)`) |
| `AppConstants`, `SetupConstants` | `src/constants/app.ts`, `src/constants/setup.ts` |
| `Types` | the `User`, `Contact` and `Settings` records, typed from their use sites |
| `Time` | `src/utils/time.ts` |
| `Validation` | `src/utils/validation.ts` |
| `Alert` | `src/utils/alert.ts` |
| `Deadline` | the deadline arithmetic repeated inline in both hooks |
| `Timer` | `src/utils/timer.ts` |
| `CheckInTimer` | `src/hooks/useCheckInTimer.ts`, as a transition system with a dispatch log |
| `AppInitialization` | `src/hooks/useAppInitialization.ts` |
| `LegacyApp` | `src/App.tsx` |
| `Onboarding`, `UserInfo`, `ContactSetup`, `SetupScreen`, `PeriodScreen` | the setup screens |
| `NumberScrollPicker`, `SafetyDashboard` / `PeriodCardText`, `CircularTimer`, `BottomProgressBar` | the display components |

Conventions:

- An empty string stands for an absent optional string. Every reader of those
  fields tests them by JavaScript truthiness, and under that test `""` and
  `undefined` behave alike.
- `setupComplete` is `Option<bool>`. An absent flag counts as armed, as in
  `setupComplete !== false`.
- A period of 0 counts as unset, as in `!period`.
- Dafny's `/` by a positive divisor rounds down, exactly like `Math.floor`.
- One fixed set of whitespace characters (the ECMAScript WhiteSpace and
  LineTerminator code points) serves both `trim()` and the regular
  expression class `\s`.

Where the prose description of the system and the code disagree, the model
follows the code:

- `handleSaveUser` accepts a blank name.
- `handleSaveContacts` accepts an empty or invalid list.
- `handleCheckIn` does not store the new check-in time.

The last of these is the second finding below.

## Model

| member | source | states |
|---|---|---|
| AppConstants.ConstantsAgree | src/constants/app.ts:2-12 | An hour is 3,600,000 ms and a minute 60,000 ms, so an hour is 60 minutes and 3,600 ticks of 1,000 ms. The urgent threshold (300 s) is below the warning threshold (3,600 s). The default period is 1 hour. The alert subject is "Emergency Alert" (15 characters) and the body "The user has not checked in as scheduled." (41 characters). |
| SetupConstants.PeriodOptionsWellFormed | src/constants/setup.ts:18-25 | There are six period options. Every option is at least one hour, the values strictly increase, and each label is "<v> hour" for 1 and "<v> hours" otherwise. |
| SetupConstants.ContactFieldsComplete | src/constants/setup.ts:3 | The contact fields are name, phone and email, in that order. Every field appears. |
| Text.Trim | src/utils/validation.ts:4-6 | `trim()` returns a contiguous infix of its input with only whitespace before and after it. The result is empty exactly when the input is all whitespace; otherwise it starts and ends with a non-whitespace character. |
| Text.TrimIdempotent | src/utils/validation.ts:4-6 | Trimming twice is trimming once. |
| Text.PadStart | src/components/NumberScrollPicker.tsx:102 | `padStart` gives a string of length max(len, width). It ends with the original, is filled with the pad character before it, and leaves a string that is already long enough unchanged. |
| Base.SplitJoin | src/utils/alert.ts:6-7 | Splitting a comma-joined list at its commas gives the list back, provided no element contains a comma. |
| Time.CalculateTimeRemaining | src/utils/time.ts:8-15 | The record is normalised (hours < 24, minutes < 60, seconds < 60, days unbounded). It counts the whole seconds of max(0, diff) exactly. Any input below 1000 ms gives all zeros. |
| Time.DecomposeRoundTrip | src/utils/time.ts:8-23 | For a normalised record, splitting its `getTotalSeconds` (times 1000) gives the record back. |
| Time.TotalOfDecomposition | src/utils/time.ts:8-23 | `getTotalSeconds(calculateTimeRemaining(ms))` is floor(max(0, ms) / 1000). |
| Time.FormatParseRoundTrip | src/utils/time.ts:17-19 | "<d>d <h>h <m>m <s>s" is unambiguous: every record with non-negative parts is read back from its text. |
| Time.GetDisclaimerStyle | src/utils/time.ts:25-42 | The disclaimer font size is between 14 and 18, and each colour comes with its own size: error 18, tertiary 16, secondary 15, muted 14. |
| Time.DisclaimerFontNonIncreasing | src/utils/time.ts:29-41 | More time left never means a larger font. |
| Time.DisclaimerBands | src/utils/time.ts:29-41 | There are four colour bands, each with a strict upper bound: below 300 (font 18), below 3600 (font 16), below 86400 (font 15), and beyond (font 14). Exactly 300 s is not in the error band. |
| Time.DisclaimerSizeDeterminesColour | src/utils/time.ts:29-41 | Two inputs get the same font size exactly when they get the same colour band. |
| Validation.EmailShapeIsRegex | src/utils/validation.ts:5 | The direct shape test accepts exactly the strings the regular expression `^[^\s@]+@[^\s@]+\.[^\s@]+$` accepts, in both directions. |
| Validation.BlankEmailInvalid | src/utils/validation.ts:3-4 | An undefined, empty or whitespace-only email is never valid. |
| Validation.EmailValidityIgnoresTrim | src/utils/validation.ts:3-6 | Surrounding whitespace never changes validity. |
| Validation.ValidEmailShape | src/utils/validation.ts:3-6 | An email is valid exactly when its trimmed text matches the pattern. A valid trimmed email has no whitespace and exactly one '@' with a non-empty part before it. It has a '.' after the '@' that is neither first nor last. |
| Validation.ValidContactCharacterised | src/utils/validation.ts:10-15 | A contact is valid exactly when the trimmed name is non-empty and either the trimmed phone is non-empty or the email is valid. An undefined contact is invalid. |
| Validation.PhoneNotFormatChecked | src/utils/validation.ts:13-15 | With a name, any non-blank phone makes the contact valid, whatever the email. |
| Validation.ValidContactReachable | src/utils/validation.ts:10-15 | A valid contact has a non-empty phone or a non-empty email. |
| Alert.EmailList | src/utils/alert.ts:6 | The email recipients are non-empty, one per contact with an email: the i-th is the email of the i-th contact that has one. |
| Alert.PhoneList | src/utils/alert.ts:7 | The phone recipients are non-empty, one per contact with a phone: the i-th is the phone of the i-th contact that has one. |
| Alert.SendAlertShape | src/utils/alert.ts:5-14 | At most two URIs are opened, the mailto before the sms. The mailto carries the joined emails, the fixed subject and the body. The sms carries the joined phones and the same body. |
| Alert.MailtoIffSomeEmail | src/utils/alert.ts:6-10 | A mailto URI is opened exactly when some contact has a non-empty email. |
| Alert.SmsIffSomePhone | src/utils/alert.ts:7-13 | An sms URI is opened exactly when some contact has a non-empty phone. |
| Alert.NoContactsNoAlert | src/utils/alert.ts:5-14 | No contacts, nothing opened. |
| Alert.EmailRecipientsRecoverable | src/utils/alert.ts:6-9 | The mailto recipient list splits back into exactly the non-empty emails, in contact order, when no email contains a comma. |
| Alert.EmailListAppend | src/utils/alert.ts:6 | Recipients of a concatenated contact list are the recipients of each part, in order. |
| Alert.EmailListSingleton | src/utils/alert.ts:6 | A single contact contributes its email when it is non-empty and nothing otherwise. |
| Alert.PhoneListAppend | src/utils/alert.ts:7 | Phone recipients of a concatenated contact list are those of each part, in order. |
| Alert.PhoneListSingleton | src/utils/alert.ts:7 | A single contact contributes its phone when it is non-empty and nothing otherwise. |
| Alert.MalformedEmailStillAddressed | src/utils/alert.ts:6-10 | Filtering is by truthiness only. A whitespace-only email, which is not a valid email, is still addressed. |
| Alert.ValidContactAlerted | src/utils/alert.ts:5-14 | A list with a valid contact opens at least one URI. |
| Alert.UriRecipients | src/utils/alert.ts:9-12 | The recipients are the text between the scheme and the first '?', as both URI schemes lay out. |
| Deadline.SecondsLeft | src/hooks/useCheckInTimer.ts:20-21 | The seconds left are a non-negative count of whole seconds of max(0, deadline − now). |
| Deadline.BreachBoundary | src/hooks/useCheckInTimer.ts:33-35 | A breach (0 s left) is reported exactly when less than 1000 ms remain. That is up to 999 ms early, and at the deadline at the latest. |
| Deadline.FullPeriodAtCheckIn | src/hooks/useCheckInTimer.ts:20-21 | At the moment of check-in, period·3600 seconds are left. |
| Deadline.SecondsLeftMonotone | src/hooks/useCheckInTimer.ts:32-33 | A later clock never shows more time left. |
| Deadline.AgreesWithTimeUtility | src/hooks/useCheckInTimer.ts:20-21 | The hooks' max(0, floor(diff/1000)) equals the total seconds of `calculateTimeRemaining(diff)`. |
| Timer.GetCheckInTime | src/utils/timer.ts:6-9 | The check-in time is null exactly when there is no last check-in or the period is 0. Otherwise it lies period hours after the last check-in. |
| Timer.GetRemainingTimeMinutes | src/utils/timer.ts:11-17 | The minutes are 0 without a check-in time. Otherwise they are the whole minutes of max(0, deadline − now), never negative. |
| Timer.StartTimerPlan | src/utils/timer.ts:19-39 | Without a check-in time, nothing is called or scheduled. Otherwise exactly one alert is arranged. It is immediate when the deadline is not in the future. Otherwise the plan is exactly: one timeout ending at the deadline, one immediate update, and the repeating update at the given interval. |
| Timer.ImmediateAlertShowsZero | src/utils/timer.ts:11-39 | An immediate alert happens only when the minute countdown shows 0. |
| CheckInTimer.SyncAsWritten | src/hooks/useCheckInTimer.ts:13-24 | The sync effect as written. Null settings reset to (0, not fired). Unarmed settings change nothing else. Armed settings set the remaining seconds to the whole seconds left before the deadline, and the alert counts as fired exactly when it already was or none are left. It never dispatches and never clears a fired alert. |
| CheckInTimer.Sync | src/hooks/useCheckInTimer.ts:13-24 | The corrected sync leaves the same state as the written one. It dispatches to the current contacts exactly when it is the step that notices a breach of armed settings not yet fired. On armed settings the remaining seconds are the whole seconds left before the deadline. |
| CheckInTimer.TickStep | src/hooks/useCheckInTimer.ts:27-45 | With the ticker not running (unarmed, or already fired), a tick changes nothing and dispatches nothing. |
| CheckInTimer.TickEffects | src/hooks/useCheckInTimer.ts:31-42 | A running tick on a breach dispatches to the current contacts, marks the alert fired and keeps the remaining seconds. Otherwise it changes only the remaining seconds: they become the whole seconds left before the deadline, which is at least 1. |
| CheckInTimer.HandleCheckInAsWritten | src/hooks/useCheckInTimer.ts:47-54 | On null settings nothing happens. Otherwise the remaining seconds restart at a full period (period × 3600), the fired flag is cleared and `now` is returned, while the settings being counted against stay as they were. |
| CheckInTimer.HandleCheckIn | src/hooks/useCheckInTimer.ts:47-54 | The corrected check-in stores `now` as the last check-in, shows the full period and clears the fired flag. It returns the same check-in time as written. |
| CheckInTimer.DismissIsCheckIn | src/hooks/useCheckInTimer.ts:56-58 | Dismissing the alert is exactly a check-in. |
| CheckInTimer.DispatchOnlyWhenNotFired | src/hooks/useCheckInTimer.ts:28-38 | A step dispatches only from a not-yet-fired state, and the step leaves it fired. As written, only a tick dispatches. |
| CheckInTimer.FiredStaysFired | src/hooks/useCheckInTimer.ts:13-45 | Apart from a check-in, a dismissal or cleared settings, no event clears a fired alert or dispatches once fired. |
| CheckInTimer.AtMostOneDispatch | src/hooks/useCheckInTimer.ts:27-45 | Over any run without a check-in, dismissal or cleared settings there is at most one dispatch. There are none if the alert had already fired. |
| CheckInTimer.NotifiedMeansLogged | src/hooks/useCheckInTimer.ts:35-37 | The "notified since last clear" tracker only turns true through a dispatch in the log. |
| CheckInTimer.FiredImpliesNotified | src/hooks/useCheckInTimer.ts:13-45 | With the corrected sync, every step preserves "fired implies notified". |
| CheckInTimer.FiredFromMountIsNotified | src/hooks/useCheckInTimer.ts:6-24 | From the mount state, whenever the corrected hook shows the alert as fired, the log holds a dispatch. |
| CheckInTimer.SilentBreachAsWritten | src/hooks/useCheckInTimer.ts:22-29 | As written, armed settings loaded past their deadline mark the alert fired. Later ticks dispatch nothing, so the log stays empty. The corrected sync dispatches once. |
| CheckInTimer.CheckInKeepsOldDeadlineAsWritten | src/hooks/useCheckInTimer.ts:47-54 | As written, checking in after a breach leaves the old deadline in force, so the next tick dispatches again. |
| CheckInTimer.NoAlertBeforeNewDeadline | src/hooks/useCheckInTimer.ts:47-54 | After the corrected check-in, a tick dispatches nothing while a whole second of the new period remains. |
| CheckInTimer.DispatchedAlertIntents | src/hooks/useCheckInTimer.ts:35-36 | The alert a breach tick sends is `sendAlert` of the counted settings' contacts. |
| AppInitialization.LoadTimerValues | src/hooks/useAppInitialization.ts:35-53 | The values computed on load are non-negative. "Fired" holds only with 0 seconds left. Unarmed or absent settings give (0, not fired). Armed settings give the whole seconds left before the deadline, and "fired" exactly when none are left. |
| AppInitialization.Reconcile | src/hooks/useAppInitialization.ts:22-58 | A cancelled load changes nothing. A failed load changes only `loaded`. A completed load sets `loaded` and takes the stored settings, or null. |
| AppInitialization.GetStarted | src/hooks/useAppInitialization.ts:65-68 | Getting started sets only the welcome flag. |
| AppInitialization.SaveUser | src/hooks/useAppInitialization.ts:70-80 | Saving a user discards prior settings and builds a record for that user: no contacts, period 1, no check-in, the setup flag false, so not armed. Nothing else changes. |
| AppInitialization.SaveContacts | src/hooks/useAppInitialization.ts:82-90 | With null settings nothing changes. Otherwise only the contacts are replaced, unvalidated. |
| AppInitialization.PeriodSave | src/hooks/useAppInitialization.ts:92-104 | With null settings nothing changes. Otherwise it sets the period, sets the last check-in to `now` and marks setup complete. User and contacts are kept, and the period is not range-checked. |
| AppInitialization.LoadedBreach | src/hooks/useAppInitialization.ts:39-43 | Loading reports a fired alert exactly when stored armed settings have less than 1000 ms left. |
| AppInitialization.WelcomeFlagRoundTrip | src/hooks/useAppInitialization.ts:26-33 | The welcome screen counts as seen exactly when the stored flag is "true". The flag that getting started stores reads back as seen. |
| AppInitialization.LoadAgreesWithTimerSync | src/hooks/useAppInitialization.ts:39-47 | The countdown values computed on load equal those the countdown hook's sync computes from its mount state. |
| AppInitialization.HandlersKeepWellFormed | src/hooks/useAppInitialization.ts:65-104 | Every setup handler keeps "setup complete implies a first check-in and a period of at least 1", given a period of at least 1. |
| AppInitialization.SaveContactsKeepsArming | src/hooks/useAppInitialization.ts:82-90 | Saving contacts neither arms nor disarms the switch. |
| AppInitialization.SetupFlow | src/hooks/useAppInitialization.ts:70-104 | Saving user, contacts and period arms the switch with exactly those values. The countdown hook, fed each record, shows the full period with no alert. |
| LegacyApp.UpdateRemainingTime | src/App.tsx:44-50 | Without a check-in the countdown is unchanged. Otherwise it is the whole minutes of max(0, deadline − now). |
| LegacyApp.Init | src/App.tsx:15-24 | With nothing stored, nothing happens. Otherwise the loaded settings are kept. |
| LegacyApp.SaveUser | src/App.tsx:65-74 | Saving a user builds a fresh record for that user with no contacts, period 1, no check-in and no setup flag. |
| LegacyApp.Save | src/App.tsx:76-87 | With null settings nothing happens. Otherwise it sets contacts, period and check-in time in one step and keeps the user. |
| LegacyApp.CheckIn | src/App.tsx:89-99 | With null settings nothing happens. Otherwise only the check-in time changes. |
| LegacyApp.ScreenSelection | src/App.tsx:101-109 | Onboarding shows exactly without a user. Setup shows exactly with a user and no contacts. Main shows otherwise. |
| LegacyApp.LegacyAlertIsShared | src/App.tsx:52-63 | The inline alert opens the same URIs as the shared `sendAlert`. |
| LegacyApp.LegacyStartIsShared | src/App.tsx:26-42 | The inline timer start is the shared `startTimer` with a one-minute update interval. |
| LegacyApp.UpdateAgreesWithUtility | src/App.tsx:44-50 | With a period set, the minute countdown equals `getRemainingTimeMinutes`. |
| LegacyApp.SetupFlow | src/App.tsx:65-87 | Saving a user leads to setup. Saving contacts and a period leads to main exactly when there are contacts. It shows the full period in minutes, schedules one alert at the deadline and opens nothing. |
| LegacyApp.CheckInRestartsPeriod | src/App.tsx:89-99 | A check-in, however late, opens nothing, shows the full period and arranges exactly one alert. |
| LegacyApp.OverdueLoadAlerts | src/App.tsx:15-42 | Loading settings past their deadline sends the shared alert at once and schedules nothing. |
| Onboarding.Step | src/screens/OnboardingScreen.tsx:26-68 | Every event keeps the step within 0..2. |
| Onboarding.Navigation | src/screens/OnboardingScreen.tsx:32-68 | An enabled Next advances exactly one step, or on the last step saves the record as it is. A disabled Next does nothing. Previous goes back exactly one step, except on the first. |
| Onboarding.InputWritesCurrentField | src/screens/OnboardingScreen.tsx:26-28 | Typing writes the current step's field and no other. |
| Onboarding.InputKeepsAnswered | src/screens/OnboardingScreen.tsx:26-28 | Typing on a step keeps the earlier steps' answers non-blank. |
| Onboarding.NextKeepsAnswered | src/screens/OnboardingScreen.tsx:30-49 | Next moves past a step, or saves, only when that step's answer is non-blank, so a save has all three non-blank. |
| Onboarding.StepKeepsAnswered | src/screens/OnboardingScreen.tsx:26-59 | Every event keeps the earlier steps' answers non-blank. A save has all three non-blank. |
| Onboarding.SavedUsersComplete | src/screens/OnboardingScreen.tsx:30-59 | Over any run from the start, every saved user has a non-blank name, phone and email. |
| Onboarding.StartState | src/screens/OnboardingScreen.tsx:10-30 | The wizard starts on the name step with Next disabled. |
| UserInfo.UpdateField | src/screens/UserInfoScreen.tsx:15-17 | Updating a field changes only that field. |
| UserInfo.Continue | src/screens/UserInfoScreen.tsx:19-23 | Continue yields a record exactly when the name is not blank, and yields it untrimmed. |
| UserInfo.StartsDisabled | src/screens/UserInfoScreen.tsx:13-23 | The empty form starts with Continue disabled. |
| UserInfo.OnlyNameGates | src/screens/UserInfoScreen.tsx:15-23 | Phone and email never affect the gate. The name passes through untrimmed. |
| ContactSetup.StartAdd | src/screens/ContactSetupScreen.tsx:39-42 | Starting an add keeps the list and opens the dialog on a contact whose name, phone and email are all empty, with the index set to "new" (-1), so saving appends. |
| ContactSetup.StartEdit | src/screens/ContactSetupScreen.tsx:44-47 | Starting an edit opens a copy of the contact at that position, records that position as the editing index (so saving replaces it), and keeps the list. |
| ContactSetup.CancelEdit | src/screens/ContactSetupScreen.tsx:49-52 | Cancelling closes the dialog and keeps the list. |
| ContactSetup.SaveEdit | src/screens/ContactSetupScreen.tsx:54-67 | In add mode it appends and keeps earlier entries. In edit mode it replaces only that position. With nothing open it changes nothing. Otherwise it closes the dialog. |
| ContactSetup.RemoveContact | src/screens/ContactSetupScreen.tsx:69-72 | Removal keeps the dialog state and never grows the list. |
| ContactSetup.DropIndexSpec | src/screens/ContactSetupScreen.tsx:69-72 | `filter((_, i) => i !== index)` removes exactly position `index` and keeps the rest in order. An out-of-range index removes nothing. |
| ContactSetup.RemoveContactSpec | src/screens/ContactSetupScreen.tsx:69-72 | Removing position i gives `contacts[..i] + contacts[i+1..]`. Removing an out-of-range position changes nothing. |
| ContactSetup.AddThenRemoveRestores | src/screens/ContactSetupScreen.tsx:54-72 | Adding a contact and removing the last row gives the list back. |
| ContactSetup.EditUnchangedIsIdentity | src/screens/ContactSetupScreen.tsx:44-67 | Opening a contact and saving or cancelling without changes leaves the list as it was. |
| ContactSetup.ValidIndexKept | src/screens/ContactSetupScreen.tsx:39-76 | Every editor operation keeps the editing index one the screen can use. |
| ContactSetup.UpdateEditing | src/screens/ContactSetupScreen.tsx:74-76 | Editing writes one field of the open contact, or nothing when none is open. |
| ContactSetup.FirstNonEmpty | src/screens/ContactSetupScreen.tsx:95-97 | `a \|\| b \|\| ''` is one of a or b, and is empty only when both are. |
| ContactSetup.PickFromDevice | src/screens/ContactSetupScreen.tsx:78-99 | Denied permission or an empty address book changes nothing and shows a notice. A picked contact fills the open dialog and keeps the list. |
| ContactSetup.PickMerge | src/screens/ContactSetupScreen.tsx:93-98 | Each merged field is the device's value when non-empty, otherwise the previous value. |
| ContactSetup.Continue | src/screens/ContactSetupScreen.tsx:101-107 | Continue proceeds exactly when the list is non-empty, and passes the whole raw list. |
| ContactSetup.FilteredContacts | src/screens/ContactSetupScreen.tsx:30-37 | A blank search shows the full list. Otherwise it shows exactly the contacts matching name or email ignoring case, or phone verbatim. |
| ContactSetup.SearchKeepsOrder | src/screens/ContactSetupScreen.tsx:30-37 | The search result keeps the list's order. |
| ContactSetup.SearchSingleton | src/screens/ContactSetupScreen.tsx:30-37 | A single contact is listed once when the search is blank or it matches, and not at all otherwise, so each match appears exactly once. |
| ContactSetup.SearchIgnoresCase | src/screens/ContactSetupScreen.tsx:33-35 | An upper-case query finds a lower-case name. |
| SetupScreen.UpdateContact | src/screens/SetupScreen.tsx:28-32 | Box i becomes `{ email }`. The other boxes, the length and the period are unchanged. |
| SetupScreen.HandleSave | src/screens/SetupScreen.tsx:19-26 | Save reports the error exactly when no box has a non-blank email. Otherwise it passes exactly the boxes with a non-blank email, in form order and each as often as it appears, and the period. |
| SetupScreen.SaveKeepsOrder | src/screens/SetupScreen.tsx:20 | Saving two forms laid end to end saves the first form's boxes followed by the second's, so the saved order is the form order. |
| SetupScreen.StartState | src/screens/SetupScreen.tsx:11-26 | The form starts with four blank boxes and period 1. Saving it at once is refused. |
| SetupScreen.SavedUntrimmed | src/screens/SetupScreen.tsx:19-32 | The filter trims only to decide. Saved emails keep their spaces. |
| SetupScreen.PickerMatchesOptions | src/screens/SetupScreen.tsx:54-59 | The picker's values are exactly the shared period options, 1, 2, 4, 8, 12 and 24. |
| NumberScrollPicker.RoundIndex | src/components/NumberScrollPicker.tsx:51-53 | The index is the row whose top lies within half a row of the offset. |
| NumberScrollPicker.Snap | src/components/NumberScrollPicker.tsx:51-61 | The snapped value lies in [min, max]. A correction scrolls to the value's row, and only when the view is not already there. |
| NumberScrollPicker.Items | src/components/NumberScrollPicker.tsx:82-102 | There are max − min + 1 rows, and row i shows min + i. |
| NumberScrollPicker.SnapOfRowOffset | src/components/NumberScrollPicker.tsx:37-61 | Snapping at a value's own row gives that value, with no correction. |
| NumberScrollPicker.SnapNearest | src/components/NumberScrollPicker.tsx:51-61 | Within the list the snap picks the nearest row. It corrects exactly when the offset is not a row top. |
| NumberScrollPicker.SnapClampsEnds | src/components/NumberScrollPicker.tsx:53-55 | Past either end the snap stops at min or max. |
| NumberScrollPicker.LabelValue | src/components/NumberScrollPicker.tsx:99-102 | A row label is a numeral of max(len, padStart) characters whose value is the row's value. |
| NumberScrollPicker.HourLabelsTwoDigits | src/components/NumberScrollPicker.tsx:99-102 | The hours picker's labels are two digits that read as the hour. |
| PeriodScreen.Finish | src/screens/PeriodScreen.tsx:16-19 | The saved period is at least 1, and equals days·24 + hours whenever that is positive. |
| PeriodScreen.FallbackAndInitial | src/screens/PeriodScreen.tsx:13-18 | A zero selection, and the initial 0 days / 1 hour, save 1. |
| PeriodScreen.SavedPeriodBounds | src/screens/PeriodScreen.tsx:16-51 | Any selection the pickers allow saves 1 to 191 hours. A non-zero selection is recovered from the period by /24 and %24. |
| PeriodScreen.SnappedPeriodBounds | src/screens/PeriodScreen.tsx:32-51 | Whatever is scrolled, the snapped selection is in range and saves 1 to 191 hours. |
| PeriodCardText.FormatParseRoundTrip | src/screens/SafetyDashboardScreen.tsx:27-34 | The period card is unambiguous: every non-negative period reads back as its whole hours, losing only the leftover seconds. |
| PeriodCardText.Pluralisation | src/screens/SafetyDashboardScreen.tsx:27-34 | The card shows "0 hours", "1 hour", "1 day", "2 days" and "1d 1h" for the matching inputs. |
| CircularTimer.ColourBands | src/components/CircularTimer.tsx:26-30 | The ring is red up to 300 s, yellow up to 3600 s and green beyond, with both bounds inclusive. |
| CircularTimer.TwoDigitsValue | src/components/CircularTimer.tsx:33-35 | A group for a value below 100 is two digits reading as that value. |
| CircularTimer.ClockShowsTimeOfDay | src/components/CircularTimer.tsx:32-35 | hh, mm and ss are two digits each. Read as numbers they recombine to max(0, remaining) mod 86400. |
| CircularTimer.DaysDropped | src/components/CircularTimer.tsx:32-35 | 90000 s shows as 01:00:00. |
| CircularTimer.FractionRange | src/components/CircularTimer.tsx:23 | The fraction is 0 without a positive period, and in [0, 1] while the time left is within the period. |
| BottomProgressBar.Fraction | src/components/BottomProgressBar.tsx:12 | The bar's fraction is always in [0, 1], and 0 without a positive period. |
| BottomProgressBar.FractionIsClampedRing | src/components/BottomProgressBar.tsx:12 | The bar shows the ring's fraction clamped to [0, 1]. It is full once the time left reaches the period and empty at 0. |
| BottomProgressBar.SameBandsAsRing | src/components/BottomProgressBar.tsx:14-18 | The bar's colour bands are the ring's, with the same inclusive bounds. |

## Left out

- src/utils/storage.ts (AsyncStorage, JSON, ISO 8601 dates) is not part of this model. A load is a `LoadOutcome` parameter and a save is the record returned.
- `Linking.openURL`, `encodeURIComponent`, `expo-contacts` and `Alert.alert` are platform calls. URIs are returned as intents, the encoder is a parameter of `Alert.Uri`, and the device contact and permission answer are a `PickOutcome`.
- Timers and concurrency are not modelled: `setInterval`, BackgroundTimer, `clearInterval`, `stopTimer` and `stopBackgroundTimer`. Ticks are explicit events carrying `now`; a started timer is a `TimerAction`. Interleavings of asynchronous loads and saves are not modelled, beyond the `cancelled` flag as a parameter of `AppInitialization.Reconcile`.
- The 150 ms snap fallback timer and the `isScrolling` flag of NumberScrollPicker are not modelled; `doSnap` is modelled directly.
- `UPDATE_INTERVAL_MS`, imported by src/utils/timer.ts, is not defined in the constants shown. It is the parameter `updateIntervalMs` of `Timer.StartTimer`.
- `formatHHMMSS` (used by src/screens/UrgentCheckInScreen.tsx) is not part of this model.
- The seven-way screen choice in src/app/(drawer)/index.tsx (welcome, user info, contacts, period, alert fired, urgent, dashboard) is not modelled. Only the selector of src/App.tsx is.
- Rendering, styles, animations and layout are not modelled: the slide animation of the onboarding wizard, `menuVisible`, and the ring's radius, circumference and dash offset.
- The opacity values of `getDisclaimerStyle` are not modelled; only the colour band and font size are.
- `formatDate` on the dashboard uses locale formatting and is not modelled.
- Text.ToLower: lowers ASCII letters only, not full Unicode case mapping, so `ContactSetup.FilteredContacts` compares case-insensitively only for ASCII.
- Timestamps and periods are unbounded integers. JavaScript numbers are exact below 2^53 ms, far beyond any realistic date, so no wrap-around is modelled.
- CircularTimer.FractionRange: fractions are exact reals, not IEEE doubles.
- NumberScrollPicker.Snap: scroll offsets are whole pixels. `Math.round` of a fractional offset and the 0.5-pixel correction tolerance reduce to integer rounding and `!=`.
- ContactSetup.StartEdit: requires a position inside the list. The screen only calls it from a row it rendered.
- ContactSetup.SaveEdit: requires an editing index that is none, "new", or inside the list (`ValidIndex`). `ContactSetup.ValidIndexKept` shows the screen's operations keep that.
- SetupScreen.UpdateContact: requires a position inside the list. The screen only calls it for one of its four rendered boxes.
- Onboarding.Step: requires the step index to be in 0..2, which every event keeps.
- Onboarding.Step: moves to the next or previous step when the button is pressed. The source moves in the callback of a 300 ms slide animation, to the step captured at the press. Typing or pressing while a slide is under way is therefore not modelled.
- Onboarding.SavedUsersComplete: holds for runs in which each step change happens before the next event. In the source, an answer cleared during Next's 300 ms slide is not re-checked when the step changes, so such a run could save a blank answer. The model does not cover it.
- Onboarding.StepKeepsAnswered: like `Onboarding.SavedUsersComplete`, it assumes the step changes at the press and not when the slide ends.
- CheckInTimer.TickStep: states the idle case only. The running case is stated by `CheckInTimer.TickEffects`.
- ContactSetup.RemoveContact: states only the length bound and the kept dialog state. The positions are stated by `ContactSetup.RemoveContactSpec`.
- src/types/index.ts declares fewer fields than the code reads. The records are typed from their use sites instead. `src/constants/onboarding.ts` only repeats the wizard's step table.

## Findings

| source | as written | input that shows it | evidently intended | confidence | as-written member | corrected member |
|---|---|---|---|---|---|---|
| src/hooks/useCheckInTimer.ts:22-23 | When the sync effect is the first to see a breach, it sets `alertFired` but never calls `sendAlert`. The ticker then never starts, because it requires `!alertFired`. | Settings armed at 0 ms with a 1-hour period, loaded at 2 h (for example, the app was closed past the deadline), then ticks at 2 h + 1 s and 2 h + 2 s. The alert shows as fired and nothing is ever sent. | A breach noticed at load is sent at once, as src/App.tsx:39-41 and src/utils/timer.ts:36-38 do. | not executed | CheckInTimer.SilentBreachAsWritten | CheckInTimer.Sync (with CheckInTimer.FiredFromMountIsNotified) |
| src/hooks/useCheckInTimer.ts:47-54 | `handleCheckIn` returns `{ lastCheckIn: now }` for its caller to store, but src/app/(drawer)/index.tsx:35,65,73 passes it straight to the screens, whose `onPress` discards the value. The deadline never moves. | Settings as above with the alert fired. Check in at 2 h, then tick at 2 h + 1 s: the alert is sent again. | A check-in starts a new period, as src/App.tsx:89-99 does. | not executed | CheckInTimer.CheckInKeepsOldDeadlineAsWritten | CheckInTimer.HandleCheckIn (with CheckInTimer.NoAlertBeforeNewDeadline) |
