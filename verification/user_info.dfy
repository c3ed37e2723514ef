/** The user-info step of the current setup flow (src/screens/UserInfoScreen.tsx):
    three free-text fields, with Continue enabled by a non-blank name. */
module UserInfo {
  import opened Base
  import opened Types
  import opened Text

  /** The form's initial record. */
  const EMPTY_USER: User := User("", "", "")

  /** Continue is enabled iff the name is not blank. */
  predicate IsNextEnabled(u: User)
  {
    |Trim(u.name)| > 0
  }

  /** `updateField(field, value)`. */
  function UpdateField(u: User, f: Field, v: string): (r: User)
    ensures UserField(r, f) == v
    ensures forall g :: g != f ==> UserField(r, g) == UserField(u, g)
  {
    WithUserField(u, f, v)
  }

  /** Pressing Continue: the record exactly as typed, when the button is
      enabled. */
  function Continue(u: User): (r: Option<User>)
    ensures r.Some? <==> !IsBlank(u.name)
    ensures r.Some? ==> r.value == u
  {
    if IsNextEnabled(u) then Some(u) else None
  }

  // ---------------------------------------------------------------------

  /** The form starts with Continue disabled. */
  lemma StartsDisabled()
    ensures !IsNextEnabled(EMPTY_USER)
  {
    assert AllWhitespace(EMPTY_USER.name);
  }

  /** Only the name gates Continue: phone and email are never checked, and
      the name is handed over untrimmed. */
  lemma OnlyNameGates(u: User, v: string)
    ensures IsNextEnabled(UpdateField(u, Phone, v)) == IsNextEnabled(u)
    ensures IsNextEnabled(UpdateField(u, Email, v)) == IsNextEnabled(u)
    ensures Continue(User(" Ann ", "", "not an email")) == Some(User(" Ann ", "", "not an email"))
  {
    var w := User(" Ann ", "", "not an email");
    assert !IsWhitespace(w.name[1]);
  }
}
