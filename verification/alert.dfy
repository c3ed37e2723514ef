/** Alert planning (src/utils/alert.ts): which `mailto:` URI (RFC 6068,
    section 2) and which `sms:` URI (RFC 5724, section 2.2) are opened, and
    with which comma-separated recipient lists. Opening a URI is left to the
    platform; the model returns the list of URIs to open, in order. */
module Alert {
  import opened Base
  import opened Types
  import opened AppConstants
  import Validation
  import Text

  /** One `Linking.openURL` call the alert makes. */
  datatype AlertIntent =
    | OpenMailto(recipients: string, subject: string, body: string)
    | OpenSms(recipients: string, body: string)

  predicate HasEmail(c: Contact) { c.email != "" }
  predicate HasPhone(c: Contact) { c.phone != "" }

  /** The non-empty emails, in contact order. */
  function EmailList(contacts: seq<Contact>): (r: seq<string>)
    ensures forall i :: 0 <= i < |r| ==> r[i] != ""
    ensures |r| == |Filter(contacts, HasEmail)|
    ensures forall i :: 0 <= i < |r| ==> r[i] == Filter(contacts, HasEmail)[i].email
  {
    Map(Filter(contacts, HasEmail), (c: Contact) => c.email)
  }

  /** The non-empty phone numbers, in contact order. */
  function PhoneList(contacts: seq<Contact>): (r: seq<string>)
    ensures forall i :: 0 <= i < |r| ==> r[i] != ""
    ensures |r| == |Filter(contacts, HasPhone)|
    ensures forall i :: 0 <= i < |r| ==> r[i] == Filter(contacts, HasPhone)[i].phone
  {
    Map(Filter(contacts, HasPhone), (c: Contact) => c.phone)
  }

  /** `sendAlert(contacts)` as the list of URIs it opens. */
  function SendAlert(contacts: seq<Contact>): (intents: seq<AlertIntent>)
  {
    var emails := Join(EmailList(contacts), ',');
    var phones := Join(PhoneList(contacts), ',');
    (if emails != "" then [OpenMailto(emails, ALERT_SUBJECT, ALERT_BODY)] else [])
    + (if phones != "" then [OpenSms(phones, ALERT_BODY)] else [])
  }

  lemma FilterEmpty<T>(xs: seq<T>, p: T -> bool)
    ensures Filter(xs, p) == [] <==> forall i :: 0 <= i < |xs| ==> !p(xs[i])
  {
    if Filter(xs, p) != [] {
      var x := Filter(xs, p)[0];
      assert x in xs;
    }
  }

  predicate OpensMailto(intents: seq<AlertIntent>)
  {
    exists k :: 0 <= k < |intents| && intents[k].OpenMailto?
  }

  predicate OpensSms(intents: seq<AlertIntent>)
  {
    exists k :: 0 <= k < |intents| && intents[k].OpenSms?
  }

  /** The shape of the plan: at most two URIs, the mailto first, the fixed
      subject, and the same body on both channels. */
  lemma SendAlertShape(contacts: seq<Contact>)
    ensures var intents := SendAlert(contacts);
      && |intents| <= 2
      && (|intents| == 2 ==> intents[0].OpenMailto? && intents[1].OpenSms?)
      && (forall k :: 0 <= k < |intents| && intents[k].OpenMailto? ==>
            intents[k].recipients == Join(EmailList(contacts), ',')
            && intents[k].subject == "Emergency Alert"
            && intents[k].body == "The user has not checked in as scheduled.")
      && (forall k :: 0 <= k < |intents| && intents[k].OpenSms? ==>
            intents[k].recipients == Join(PhoneList(contacts), ',')
            && intents[k].body == "The user has not checked in as scheduled.")
  {
  }

  /** A mailto URI is opened exactly when some contact has an email. */
  lemma MailtoIffSomeEmail(contacts: seq<Contact>)
    ensures OpensMailto(SendAlert(contacts)) <==> exists i :: 0 <= i < |contacts| && contacts[i].email != ""
  {
    var emails := Join(EmailList(contacts), ',');
    assert OpensMailto(SendAlert(contacts)) <==> emails != "" by {
      if emails != "" {
        assert SendAlert(contacts)[0].OpenMailto?;
      }
    }
    JoinEmpty(EmailList(contacts), ',');
    FilterEmpty(contacts, HasEmail);
    if i :| 0 <= i < |contacts| && contacts[i].email != "" {
      assert HasEmail(contacts[i]);
    }
  }

  /** An sms URI is opened exactly when some contact has a phone. */
  lemma SmsIffSomePhone(contacts: seq<Contact>)
    ensures OpensSms(SendAlert(contacts)) <==> exists i :: 0 <= i < |contacts| && contacts[i].phone != ""
  {
    var phones := Join(PhoneList(contacts), ',');
    assert OpensSms(SendAlert(contacts)) <==> phones != "" by {
      var intents := SendAlert(contacts);
      if phones != "" {
        assert intents[|intents| - 1].OpenSms?;
      }
    }
    JoinEmpty(PhoneList(contacts), ',');
    FilterEmpty(contacts, HasPhone);
    if i :| 0 <= i < |contacts| && contacts[i].phone != "" {
      assert HasPhone(contacts[i]);
    }
  }

  /** No contacts, no URIs. */
  lemma NoContactsNoAlert()
    ensures SendAlert([]) == []
  {
    JoinEmpty(EmailList([]), ',');
    JoinEmpty(PhoneList([]), ',');
  }

  /** The recipient list of the mailto URI is exactly the contacts' non-empty
      emails in their original order: splitting it at commas gives them back
      when no email itself contains a comma. */
  lemma EmailRecipientsRecoverable(contacts: seq<Contact>)
    requires exists i :: 0 <= i < |contacts| && contacts[i].email != ""
    requires forall i :: 0 <= i < |contacts| ==> ',' !in contacts[i].email
    ensures SendAlert(contacts)[0].OpenMailto?
    ensures Split(SendAlert(contacts)[0].recipients, ',') == EmailList(contacts)
  {
    MailtoIffSomeEmail(contacts);
    SendAlertShape(contacts);
    var es := EmailList(contacts);
    FilterEmpty(contacts, HasEmail);
    forall k | 0 <= k < |es| ensures ',' !in es[k] {
      assert Filter(contacts, HasEmail)[k] in contacts;
    }
    SplitJoin(es, ',');
  }

  /** Adding contacts to the end appends their addresses after the existing
      ones: the recipient order is the contact order. */
  lemma EmailListAppend(xs: seq<Contact>, ys: seq<Contact>)
    ensures EmailList(xs + ys) == EmailList(xs) + EmailList(ys)
  {
    FilterAppend(xs, ys, HasEmail);
  }

  /** One contact contributes its email, or nothing when it has none. With
      `EmailListAppend` this pins down the whole list: contact by contact,
      in order, every non-empty email once. */
  lemma EmailListSingleton(c: Contact)
    ensures EmailList([c]) == (if c.email != "" then [c.email] else [])
  {
    assert [c][1..] == [];
  }

  /** The phone list is the contacts' non-empty phones in contact order. */
  lemma PhoneListAppend(xs: seq<Contact>, ys: seq<Contact>)
    ensures PhoneList(xs + ys) == PhoneList(xs) + PhoneList(ys)
  {
    FilterAppend(xs, ys, HasPhone);
  }

  /** One contact contributes its phone, or nothing when it has none. */
  lemma PhoneListSingleton(c: Contact)
    ensures PhoneList([c]) == (if c.phone != "" then [c.phone] else [])
  {
    assert [c][1..] == [];
  }

  /** Filtering is by truthiness only: a whitespace-only or malformed email
      is still addressed. */
  lemma MalformedEmailStillAddressed()
    ensures !Validation.IsValidEmail(Some(" "))
    ensures SendAlert([Contact("", "", " ")]) == [OpenMailto(" ", ALERT_SUBJECT, ALERT_BODY)]
  {
    assert Text.IsWhitespace(' ');
    var cs := [Contact("", "", " ")];
    assert Filter(cs, HasEmail) == cs;
    assert EmailList(cs) == [" "];
    assert Filter(cs, HasPhone) == [];
    assert PhoneList(cs) == [];
  }

  /** Every valid contact is reached through at least one opened URI. */
  lemma ValidContactAlerted(contacts: seq<Contact>, i: int)
    requires 0 <= i < |contacts| && Validation.IsValidContact(Some(contacts[i]))
    ensures |SendAlert(contacts)| >= 1
  {
    Validation.ValidContactReachable(contacts[i]);
    MailtoIffSomeEmail(contacts);
    SmsIffSomePhone(contacts);
  }

  /** The URI text of an intent, given the platform's `encodeURIComponent`. */
  function Uri(intent: AlertIntent, encode: string -> string): (u: string)
  {
    match intent
    case OpenMailto(to, subject, body) =>
      "mailto:" + to + "?subject=" + encode(subject) + "&body=" + encode(body)
    case OpenSms(to, body) =>
      "sms:" + to + "?body=" + encode(body)
  }

  /** The recipient list is what lies between the scheme and the first '?',
      as both URI schemes require, whenever it contains no '?' itself. */
  lemma UriRecipients(intent: AlertIntent, encode: string -> string)
    requires '?' !in intent.recipients
    ensures var u := Uri(intent, encode);
      var scheme := if intent.OpenMailto? then "mailto:" else "sms:";
      && |scheme| <= |u| && u[..|scheme|] == scheme
      && '?' in u[|scheme|..]
      && u[|scheme|..][..IndexOf(u[|scheme|..], '?')] == intent.recipients
  {
    var scheme := if intent.OpenMailto? then "mailto:" else "sms:";
    var u := Uri(intent, encode);
    var tail := if intent.OpenMailto? then "subject=" + encode(intent.subject) + "&body=" + encode(intent.body)
                else "body=" + encode(intent.body);
    assert u == scheme + (intent.recipients + ['?'] + tail);
    assert u[|scheme|..] == intent.recipients + ['?'] + tail;
    IndexOfAfterPrefix(intent.recipients, '?', tail);
    assert (intent.recipients + ['?'] + tail)[..|intent.recipients|] == intent.recipients;
  }
}
