/** The contact-list step of the current setup flow
    (src/screens/ContactSetupScreen.tsx): an editor dialog for adding or
    changing one contact, removal by position, a search box, a merge of a
    device contact into the dialog, and Continue. The device's address book
    and permission prompt are parameters: `PickOutcome` is what they
    returned. */
module ContactSetup {
  import opened Base
  import opened Types
  import opened Text

  /** The list, the contact open in the dialog (if any) and what the dialog
      edits: `Some(-1)` a new contact, `Some(i)` the contact at `i`. */
  datatype Editor = Editor(contacts: seq<Contact>, editing: Option<Contact>, editingIndex: Option<int>)

  const ADD_INDEX: int := -1

  const EMPTY_CONTACT: Contact := Contact("", "", "")

  const Start: Editor := Editor([], None, None)

  /** The editing index the screen can hold: none, "new", or a position in
      the list (every row the screen shows carries its own position). */
  predicate ValidIndex(ed: Editor)
  {
    ed.editingIndex.None? || ed.editingIndex.value == ADD_INDEX || 0 <= ed.editingIndex.value < |ed.contacts|
  }

  /** `startAdd`: opens the dialog on an empty contact. */
  function StartAdd(ed: Editor): (r: Editor)
    ensures r.contacts == ed.contacts && ValidIndex(r)
    ensures r.editing == Some(EMPTY_CONTACT) && r.editingIndex == Some(ADD_INDEX)
    ensures ContactField(r.editing.value, Name) == "" && ContactField(r.editing.value, Phone) == ""
         && ContactField(r.editing.value, Email) == ""
  {
    ed.(editing := Some(EMPTY_CONTACT), editingIndex := Some(ADD_INDEX))
  }

  /** `startEdit(i)`: opens the dialog on a copy of the contact at `i`. */
  function StartEdit(ed: Editor, i: int): (r: Editor)
    requires 0 <= i < |ed.contacts|
    ensures r.contacts == ed.contacts && ValidIndex(r)
    ensures r.editing == Some(ed.contacts[i]) && r.editingIndex == Some(i)
  {
    ed.(editing := Some(ed.contacts[i]), editingIndex := Some(i))
  }

  /** `cancelEdit`: closes the dialog. */
  function CancelEdit(ed: Editor): (r: Editor)
    ensures r.contacts == ed.contacts && r.editing.None? && r.editingIndex.None?
  {
    ed.(editing := None, editingIndex := None)
  }

  /** `saveEdit`: appends a new contact or replaces the edited one, then
      closes the dialog; with no contact open it does nothing at all. */
  function SaveEdit(ed: Editor): (r: Editor)
    requires ValidIndex(ed)
    ensures ed.editing.None? ==> r == ed
    ensures ed.editing.Some? ==> r.editing.None? && r.editingIndex.None?
    ensures ed.editing.Some? && ed.editingIndex == Some(ADD_INDEX) ==>
      |r.contacts| == |ed.contacts| + 1 && r.contacts[..|ed.contacts|] == ed.contacts
      && r.contacts[|ed.contacts|] == ed.editing.value
    ensures ed.editing.Some? && ed.editingIndex.Some? && ed.editingIndex.value != ADD_INDEX ==>
      var i := ed.editingIndex.value;
      |r.contacts| == |ed.contacts| && r.contacts[i] == ed.editing.value
      && forall k :: 0 <= k < |ed.contacts| && k != i ==> r.contacts[k] == ed.contacts[k]
    ensures ed.editingIndex.None? ==> r.contacts == ed.contacts
  {
    match ed.editing
    case None => ed
    case Some(c) =>
      var contacts :=
        match ed.editingIndex
        case None => ed.contacts
        case Some(i) => if i == ADD_INDEX then ed.contacts + [c] else ed.contacts[i := c];
      Editor(contacts, None, None)
  }

  /** The elements of `xs` whose position, counted from `from`, is not
      `index`: `filter((_, i) => i !== index)`. */
  function DropIndex<T>(xs: seq<T>, index: int, from: int): (r: seq<T>)
    ensures |r| <= |xs|
    decreases |xs|
  {
    if |xs| == 0 then []
    else (if from == index then [] else [xs[0]]) + DropIndex(xs[1..], index, from + 1)
  }

  /** `removeContact(i)`. */
  function RemoveContact(ed: Editor, i: int): (r: Editor)
    ensures r.editing == ed.editing && r.editingIndex == ed.editingIndex
    ensures |r.contacts| <= |ed.contacts|
  {
    ed.(contacts := DropIndex(ed.contacts, i, 0))
  }

  /** `updateEditingContact(field, value)`: writes one field of the open
      contact, if any. */
  function UpdateEditing(ed: Editor, f: Field, v: string): (r: Editor)
    ensures r.contacts == ed.contacts && r.editingIndex == ed.editingIndex
    ensures ed.editing.None? ==> r == ed
    ensures ed.editing.Some? ==>
      && r.editing.Some? && ContactField(r.editing.value, f) == v
      && forall g :: g != f ==> ContactField(r.editing.value, g) == ContactField(ed.editing.value, g)
  {
    match ed.editing
    case None => ed
    case Some(c) => ed.(editing := Some(WithContactField(c, f, v)))
  }

  /** What asking the device for a contact gave: no permission, an empty
      address book, or the first contact's name, first email and first
      phone number (each `""` when missing). */
  datatype PickOutcome = PermissionDenied | NoDeviceContacts | Picked(name: string, email: string, phone: string)

  /** The message box the screen shows instead of changing anything. */
  datatype Notice = PermissionNotice | NoContactsNotice | NoListNotice

  /** `a || b || ''` on strings. */
  function FirstNonEmpty(a: string, b: string): (r: string)
    ensures r == "" <==> a == "" && b == ""
    ensures r == a || r == b
  {
    if a != "" then a else b
  }

  /** `pickFromDevice`: the device contact's fields win where present,
      otherwise the dialog's previous values stay. */
  function PickFromDevice(ed: Editor, outcome: PickOutcome): (r: (Editor, Option<Notice>))
    ensures outcome.PermissionDenied? ==> r == (ed, Some(PermissionNotice))
    ensures outcome.NoDeviceContacts? ==> r == (ed, Some(NoContactsNotice))
    ensures outcome.Picked? ==> r.1.None? && r.0.contacts == ed.contacts && r.0.editing.Some?
  {
    match outcome
    case PermissionDenied => (ed, Some(PermissionNotice))
    case NoDeviceContacts => (ed, Some(NoContactsNotice))
    case Picked(name, email, phone) =>
      var prev := if ed.editing.Some? then ed.editing.value else EMPTY_CONTACT;
      var merged := Contact(FirstNonEmpty(name, prev.name), FirstNonEmpty(phone, prev.phone), FirstNonEmpty(email, prev.email));
      (ed.(editing := Some(merged)), None)
  }

  /** `handleContinue`: the whole list, unfiltered, or a notice when it is
      empty. */
  function Continue(ed: Editor): (r: Result)
    ensures r.Proceed? <==> |ed.contacts| > 0
    ensures r.Proceed? ==> r.contacts == ed.contacts
  {
    if |ed.contacts| == 0 then Rejected(NoListNotice) else Proceed(ed.contacts)
  }

  datatype Result = Proceed(contacts: seq<Contact>) | Rejected(notice: Notice)

  /** Whether a contact matches a search: name and email ignoring (ASCII)
      case, the phone number verbatim. The search text itself is not
      trimmed. */
  predicate Matches(c: Contact, search: string)
  {
    || Contains(ToLower(c.name), ToLower(search))
    || Contains(c.phone, search)
    || Contains(ToLower(c.email), ToLower(search))
  }

  /** The contacts listed for a search text. */
  function FilteredContacts(contacts: seq<Contact>, search: string): (r: seq<Contact>)
    ensures IsBlank(search) ==> r == contacts
    ensures !IsBlank(search) ==> forall i :: 0 <= i < |r| ==> r[i] in contacts && Matches(r[i], search)
    ensures !IsBlank(search) ==> forall i :: 0 <= i < |contacts| && Matches(contacts[i], search) ==> contacts[i] in r
  {
    if IsBlank(search) then contacts else Filter(contacts, c => Matches(c, search))
  }

  // ---------------------------------------------------------------------

  /** Removing drops exactly the element at `index` and keeps the others in
      order; an index outside the list removes nothing. */
  lemma {:induction false} DropIndexSpec<T>(xs: seq<T>, index: int, from: int)
    ensures from <= index < from + |xs| ==> DropIndex(xs, index, from) == xs[..index - from] + xs[index - from + 1..]
    ensures !(from <= index < from + |xs|) ==> DropIndex(xs, index, from) == xs
    decreases |xs|
  {
    if |xs| > 0 {
      DropIndexSpec(xs[1..], index, from + 1);
      if from == index {
        assert xs[..0] + xs[1..] == xs[1..];
      } else if from < index < from + |xs| {
        assert xs[..index - from] == [xs[0]] + xs[1..][..index - from - 1];
        assert xs[index - from + 1..] == xs[1..][index - from..];
      } else {
        assert xs == [xs[0]] + xs[1..];
      }
    }
  }

  /** One contact is listed once when the search is blank or it matches, and
      not at all otherwise. With `SearchKeepsOrder` this fixes the whole
      list: each contact in turn, once, exactly when it matches. */
  lemma SearchSingleton(c: Contact, search: string)
    ensures FilteredContacts([c], search) == if IsBlank(search) || Matches(c, search) then [c] else []
  {
    assert [c][1..] == [];
  }

  /** `removeContact(i)` in terms of positions. */
  lemma RemoveContactSpec(ed: Editor, i: int)
    ensures 0 <= i < |ed.contacts| ==> RemoveContact(ed, i).contacts == ed.contacts[..i] + ed.contacts[i + 1..]
    ensures !(0 <= i < |ed.contacts|) ==> RemoveContact(ed, i) == ed
  {
    DropIndexSpec(ed.contacts, i, 0);
  }

  /** Adding a contact and then removing the last row gives the list back. */
  lemma AddThenRemoveRestores(ed: Editor, c: Contact)
    requires ed.editing.None?
    ensures var added := SaveEdit(StartAdd(ed).(editing := Some(c)));
      RemoveContact(added, |ed.contacts|).contacts == ed.contacts
  {
    var added := SaveEdit(StartAdd(ed).(editing := Some(c)));
    RemoveContactSpec(added, |ed.contacts|);
    assert added.contacts[..|ed.contacts|] == ed.contacts;
  }

  /** Opening a contact and saving it without changes leaves the list as it
      was; so does cancelling. */
  lemma EditUnchangedIsIdentity(ed: Editor, i: int)
    requires 0 <= i < |ed.contacts|
    ensures SaveEdit(StartEdit(ed, i)).contacts == ed.contacts
    ensures CancelEdit(StartEdit(ed, i)).contacts == ed.contacts
  {
    assert ed.contacts[i := ed.contacts[i]] == ed.contacts;
  }

  /** The editing index stays one the screen can use. Removal happens from
      the list's menu, which the modal dialog covers, so only with the
      dialog closed. */
  lemma ValidIndexKept(ed: Editor, i: int, f: Field, v: string, outcome: PickOutcome)
    requires ValidIndex(ed)
    ensures ValidIndex(StartAdd(ed)) && ValidIndex(CancelEdit(ed)) && ValidIndex(SaveEdit(ed))
    ensures ValidIndex(UpdateEditing(ed, f, v)) && ValidIndex(PickFromDevice(ed, outcome).0)
    ensures ed.editingIndex.None? ==> ValidIndex(RemoveContact(ed, i))
    ensures 0 <= i < |ed.contacts| ==> ValidIndex(StartEdit(ed, i))
  {
  }

  /** Each field of the merged contact is the device's value when it has
      one, else the previous value, else empty. */
  lemma PickMerge(ed: Editor, name: string, email: string, phone: string)
    requires ed.editing.Some?
    ensures var m := PickFromDevice(ed, Picked(name, email, phone)).0.editing.value;
      && (name != "" ==> m.name == name) && (name == "" ==> m.name == ed.editing.value.name)
      && (email != "" ==> m.email == email) && (email == "" ==> m.email == ed.editing.value.email)
      && (phone != "" ==> m.phone == phone) && (phone == "" ==> m.phone == ed.editing.value.phone)
  {
  }

  /** The search list keeps the contacts' order: searching a list made of
      two parts lists the matches of the first part before those of the
      second. */
  lemma SearchKeepsOrder(xs: seq<Contact>, ys: seq<Contact>, search: string)
    ensures FilteredContacts(xs + ys, search) == FilteredContacts(xs, search) + FilteredContacts(ys, search)
  {
    if !IsBlank(search) {
      FilterAppend(xs, ys, c => Matches(c, search));
    }
  }

  /** The search ignores case in names: an upper-case query finds a
      lower-case name. */
  lemma SearchIgnoresCase()
    ensures FilteredContacts([Contact("bob", "", "")], "BO") == [Contact("bob", "", "")]
  {
    var c := Contact("bob", "", "");
    assert !IsWhitespace("BO"[0]);
    assert ToLower("BO") == "bo";
    assert OccursAt(ToLower(c.name), ToLower("BO"), 0);
    assert Matches(c, "BO");
    assert Filter([c], x => Matches(x, "BO")) == [c];
  }
}
