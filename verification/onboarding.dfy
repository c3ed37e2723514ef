/** The legacy three-step onboarding wizard (src/screens/OnboardingScreen.tsx):
    one field per step, a Next/Done button enabled only when the current
    field is not blank, and a Previous button from the second step on. In the
    source the step changes in the callback of a 300 ms slide animation; the
    model changes it when the button is pressed, so edits and presses made
    while a slide is under way are not modelled. */
module Onboarding {
  import opened Base
  import opened Types
  import opened Text

  /** The steps, in order. */
  const STEPS: seq<Field> := [Name, Phone, Email]

  datatype Wizard = Wizard(step: int, user: User)

  datatype WizardEvent = InputChange(value: string) | PressNext | PressPrevious

  /** The wizard after one event, and the user handed to `onSaveUser`, if
      Done was pressed. */
  datatype WizardOutput = WizardOutput(wizard: Wizard, saved: Option<User>)

  const Start: Wizard := Wizard(0, User("", "", ""))

  predicate ValidStep(w: Wizard)
  {
    0 <= w.step < |STEPS|
  }

  function CurrentField(w: Wizard): Field
    requires ValidStep(w)
  {
    STEPS[w.step]
  }

  /** Next (or Done) is enabled iff the current field is not blank. */
  predicate IsNextEnabled(w: Wizard)
    requires ValidStep(w)
  {
    !IsBlank(UserField(w.user, CurrentField(w)))
  }

  /** One event. A disabled Next cannot be pressed, and Previous is not
      shown on the first step, so both are no-ops there. */
  function Step(w: Wizard, e: WizardEvent): (out: WizardOutput)
    requires ValidStep(w)
    ensures ValidStep(out.wizard)
  {
    match e
    case InputChange(v) => WizardOutput(w.(user := WithUserField(w.user, CurrentField(w), v)), None)
    case PressNext =>
      if !IsNextEnabled(w) then WizardOutput(w, None)
      else if w.step == |STEPS| - 1 then WizardOutput(w, Some(w.user))
      else WizardOutput(w.(step := w.step + 1), None)
    case PressPrevious =>
      if w.step == 0 then WizardOutput(w, None)
      else WizardOutput(w.(step := w.step - 1), None)
  }

  /** The final wizard and every user saved along a run of events. */
  function Run(w: Wizard, evs: seq<WizardEvent>): (r: (Wizard, seq<User>))
    requires ValidStep(w)
    ensures ValidStep(r.0)
    decreases |evs|
  {
    if |evs| == 0 then (w, [])
    else
      var out := Step(w, evs[0]);
      var rest := Run(out.wizard, evs[1..]);
      (rest.0, (if out.saved.Some? then [out.saved.value] else []) + rest.1)
  }

  /** Every step before the current one holds a non-blank answer. */
  predicate Answered(w: Wizard)
  {
    && (w.step > 0 ==> !IsBlank(w.user.name))
    && (w.step > 1 ==> !IsBlank(w.user.phone))
  }

  predicate Complete(u: User)
  {
    !IsBlank(u.name) && !IsBlank(u.phone) && !IsBlank(u.email)
  }

  // ---------------------------------------------------------------------

  /** Next advances by exactly one step, Done saves the record as it is,
      and Previous goes back by exactly one step except on the first. */
  lemma Navigation(w: Wizard)
    requires ValidStep(w)
    ensures IsNextEnabled(w) && w.step < 2 ==> Step(w, PressNext) == WizardOutput(w.(step := w.step + 1), None)
    ensures IsNextEnabled(w) && w.step == 2 ==> Step(w, PressNext) == WizardOutput(w, Some(w.user))
    ensures !IsNextEnabled(w) ==> Step(w, PressNext).wizard == w && Step(w, PressNext).saved.None?
    ensures w.step > 0 ==> Step(w, PressPrevious).wizard.step == w.step - 1
    ensures w.step == 0 ==> Step(w, PressPrevious).wizard == w
  {
  }

  /** Typing writes the current step's field and nothing else. */
  lemma InputWritesCurrentField(w: Wizard, v: string)
    requires ValidStep(w)
    ensures var w' := Step(w, InputChange(v)).wizard;
      && w'.step == w.step
      && UserField(w'.user, CurrentField(w)) == v
      && forall f :: f != CurrentField(w) ==> UserField(w'.user, f) == UserField(w.user, f)
  {
  }

  /** Typing on a step leaves the earlier steps' answers as they were. */
  lemma InputKeepsAnswered(w: Wizard, v: string)
    requires ValidStep(w) && Answered(w)
    ensures Answered(Step(w, InputChange(v)).wizard)
  {
    var u' := Step(w, InputChange(v)).wizard.user;
    assert u' == WithUserField(w.user, CurrentField(w), v);
    if w.step > 0 {
      assert u'.name == UserField(u', Name) == UserField(w.user, Name);
    }
    if w.step > 1 {
      assert u'.phone == UserField(u', Phone) == UserField(w.user, Phone);
    }
  }

  /** Next moves on, or saves, only past a non-blank answer. */
  lemma NextKeepsAnswered(w: Wizard)
    requires ValidStep(w) && Answered(w)
    ensures Answered(Step(w, PressNext).wizard)
    ensures Step(w, PressNext).saved.Some? ==> Complete(Step(w, PressNext).saved.value)
  {
    Navigation(w);
    if IsNextEnabled(w) {
      if w.step == 0 {
        assert !IsBlank(w.user.name);
      } else if w.step == 1 {
        assert !IsBlank(w.user.phone);
      } else {
        assert !IsBlank(w.user.email);
      }
    }
  }

  /** Each event keeps earlier answers filled in, and a save only happens
      with every answer filled in. */
  lemma StepKeepsAnswered(w: Wizard, e: WizardEvent)
    requires ValidStep(w) && Answered(w)
    ensures Answered(Step(w, e).wizard)
    ensures Step(w, e).saved.Some? ==> Complete(Step(w, e).saved.value)
  {
    match e
    case InputChange(v) => InputKeepsAnswered(w, v);
    case PressNext => NextKeepsAnswered(w);
    case PressPrevious =>
  }

  /** Whatever the user does, every record the wizard saves has a non-blank
      name, phone and email. */
  lemma {:induction false} SavedUsersComplete(w: Wizard, evs: seq<WizardEvent>)
    requires ValidStep(w) && Answered(w)
    ensures forall i :: 0 <= i < |Run(w, evs).1| ==> Complete(Run(w, evs).1[i])
    decreases |evs|
  {
    if |evs| > 0 {
      var out := Step(w, evs[0]);
      StepKeepsAnswered(w, evs[0]);
      SavedUsersComplete(out.wizard, evs[1..]);
    }
  }

  /** The wizard starts on the name step with Next disabled. */
  lemma StartState()
    ensures ValidStep(Start) && Answered(Start)
    ensures CurrentField(Start) == Name && !IsNextEnabled(Start)
  {
    assert AllWhitespace(Start.user.name);
  }
}
