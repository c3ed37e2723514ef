/** The records the app passes around, typed from their use sites.
    An empty string stands for an absent optional string field: every
    reader of these fields tests them by JavaScript truthiness, under which
    `""` and `undefined` behave alike. */
module Types {
  import opened Base

  /** The device owner. */
  datatype User = User(name: string, phone: string, email: string)

  /** An emergency contact. */
  datatype Contact = Contact(name: string, phone: string, email: string)

  /** The three text fields shared by users and contacts. */
  datatype Field = Name | Phone | Email

  /** The persisted aggregate. `lastCheckIn` is a millisecond timestamp;
      `setupComplete` is absent on records written before the flag existed,
      and the source treats an absent flag like `true`. */
  datatype Settings = Settings(
    user: Option<User>,
    contacts: seq<Contact>,
    period: int,
    lastCheckIn: Option<int>,
    setupComplete: Option<bool>)

  function UserField(u: User, f: Field): string
  {
    match f
    case Name => u.name
    case Phone => u.phone
    case Email => u.email
  }

  /** `{ ...u, [f]: v }` */
  function WithUserField(u: User, f: Field, v: string): (r: User)
    ensures UserField(r, f) == v
    ensures forall g :: g != f ==> UserField(r, g) == UserField(u, g)
  {
    match f
    case Name => u.(name := v)
    case Phone => u.(phone := v)
    case Email => u.(email := v)
  }

  function ContactField(c: Contact, f: Field): string
  {
    match f
    case Name => c.name
    case Phone => c.phone
    case Email => c.email
  }

  /** `{ ...c, [f]: v }` */
  function WithContactField(c: Contact, f: Field, v: string): (r: Contact)
    ensures ContactField(r, f) == v
    ensures forall g :: g != f ==> ContactField(r, g) == ContactField(c, g)
  {
    match f
    case Name => c.(name := v)
    case Phone => c.(phone := v)
    case Email => c.(email := v)
  }

  /** The contact record `{ email }` of the legacy setup screen. */
  function EmailOnly(e: string): Contact
  {
    Contact("", "", e)
  }
}
