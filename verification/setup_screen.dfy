/** The legacy one-page setup form (src/screens/SetupScreen.tsx): four
    email boxes and a period picker. */
module SetupScreen {
  import opened Base
  import opened Types
  import opened Text
  import SetupConstants

  datatype SetupForm = SetupForm(contacts: seq<Contact>, period: int)

  /** What Save does: hand the contacts and period on, or show an error. */
  datatype SaveOutcome = SaveContacts(contacts: seq<Contact>, period: int) | NoContactError

  /** The picker's choices, in order. */
  const PICKER_PERIODS: seq<int> := [1, 2, 4, 8, 12, 24]

  const Start: SetupForm := SetupForm(seq(4, _ => EmailOnly("")), 1)

  predicate HasEmail(c: Contact)
  {
    !IsBlank(c.email)
  }

  /** `updateContact(i, email)`: the box at `i` becomes `{ email }`. */
  function UpdateContact(form: SetupForm, i: int, email: string): (r: SetupForm)
    requires 0 <= i < |form.contacts|
    ensures |r.contacts| == |form.contacts| && r.period == form.period
    ensures r.contacts[i] == EmailOnly(email)
    ensures forall k :: 0 <= k < |form.contacts| && k != i ==> r.contacts[k] == form.contacts[k]
  {
    form.(contacts := form.contacts[i := EmailOnly(email)])
  }

  /** `handleSave`. */
  function HandleSave(form: SetupForm): (r: SaveOutcome)
    ensures r.SaveContacts? ==> r.period == form.period && |r.contacts| > 0
    ensures r.SaveContacts? ==> forall i :: 0 <= i < |r.contacts| ==> r.contacts[i] in form.contacts && HasEmail(r.contacts[i])
    ensures r.SaveContacts? ==> forall i :: 0 <= i < |form.contacts| && HasEmail(form.contacts[i]) ==> form.contacts[i] in r.contacts
    ensures r.NoContactError? <==> forall i :: 0 <= i < |form.contacts| ==> !HasEmail(form.contacts[i])
    ensures r.SaveContacts? ==> r.contacts == Filter(form.contacts, HasEmail)
  {
    var valid := Filter(form.contacts, HasEmail);
    FilterEmptyIff(form.contacts);
    if |valid| == 0 then NoContactError else SaveContacts(valid, form.period)
  }

  lemma FilterEmptyIff(xs: seq<Contact>)
    ensures |Filter(xs, HasEmail)| == 0 <==> forall i :: 0 <= i < |xs| ==> !HasEmail(xs[i])
  {
    if |Filter(xs, HasEmail)| > 0 {
      assert Filter(xs, HasEmail)[0] in xs;
    }
  }

  /** The saved boxes keep the form's order: saving the boxes of two forms
      laid end to end saves the first form's boxes followed by the second's. */
  lemma SaveKeepsOrder(xs: seq<Contact>, ys: seq<Contact>, period: int)
    requires HandleSave(SetupForm(xs, period)).SaveContacts?
    requires HandleSave(SetupForm(ys, period)).SaveContacts?
    ensures HandleSave(SetupForm(xs + ys, period))
         == SaveContacts(HandleSave(SetupForm(xs, period)).contacts + HandleSave(SetupForm(ys, period)).contacts, period)
  {
    FilterAppend(xs, ys, HasEmail);
  }

  // ---------------------------------------------------------------------

  /** The form starts with four blank boxes and one hour; saving it at once
      is refused. */
  lemma StartState()
    ensures |Start.contacts| == 4 && Start.period == 1
    ensures HandleSave(Start) == NoContactError
  {
    forall i | 0 <= i < 4
      ensures !HasEmail(Start.contacts[i])
    {
      assert AllWhitespace(Start.contacts[i].email);
    }
  }

  /** Emails are passed on as typed: the filter trims only to decide, so
      surrounding spaces survive into the saved contact. */
  lemma SavedUntrimmed()
    ensures HandleSave(UpdateContact(Start, 2, " a@b.co ")) == SaveContacts([EmailOnly(" a@b.co ")], 1)
  {
    var form := UpdateContact(Start, 2, " a@b.co ");
    var blank := EmailOnly("");
    var typed := EmailOnly(" a@b.co ");
    assert form.contacts == [blank, blank, typed, blank];
    assert !IsWhitespace(typed.email[1]);
    assert HasEmail(typed);
    assert AllWhitespace(blank.email);
    assert !HasEmail(blank);
    var xs := form.contacts;
    assert xs[3..][1..] == [];
    assert Filter(xs[3..], HasEmail) == [];
    assert xs[2..][1..] == xs[3..];
    assert Filter(xs[2..], HasEmail) == [typed];
    assert xs[1..][1..] == xs[2..];
    assert Filter(xs[1..], HasEmail) == [typed];
    assert Filter(xs, HasEmail) == [typed];
  }

  /** The picker offers exactly the periods of the shared option table. */
  lemma PickerMatchesOptions()
    ensures |PICKER_PERIODS| == |SetupConstants.PERIOD_OPTIONS|
    ensures forall i :: 0 <= i < |PICKER_PERIODS| ==> PICKER_PERIODS[i] == SetupConstants.PERIOD_OPTIONS[i].value
  {
  }
}
