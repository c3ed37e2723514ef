/** Email and contact validity (src/utils/validation.ts). */
module Validation {
  import opened Base
  import opened Text
  import opened Types

  /** Characters the class `[^\s@]` accepts. */
  predicate PlainChar(c: char)
  {
    !IsWhitespace(c) && c != '@'
  }

  predicate AllPlain(s: string)
  {
    forall k :: 0 <= k < |s| ==> PlainChar(s[k])
  }

  /** What the regular expression `^[^\s@]+@[^\s@]+\.[^\s@]+$` accepts:
      the string splits at an '@' at index `i` and a '.' at index `j` into
      three non-empty runs of plain characters. */
  ghost predicate MatchesEmailRegex(s: string)
  {
    exists i, j :: 0 < i && i + 1 < j < |s| - 1 && s[i] == '@' && s[j] == '.'
      && AllPlain(s[..i]) && AllPlain(s[i + 1..j]) && AllPlain(s[j + 1..])
  }

  /** The domain part has a '.' that is neither its first nor its last
      character. */
  predicate HasInnerDot(d: string)
  {
    exists j :: 0 < j < |d| - 1 && d[j] == '.'
  }

  /** A direct test of the email shape: no whitespace, exactly one '@', a
      non-empty local part, and an inner '.' after the '@'. */
  predicate EmailShape(s: string)
  {
    && NoWhitespace(s)
    && '@' in s
    && var i := IndexOf(s, '@');
       && 0 < i
       && '@' !in s[i + 1..]
       && HasInnerDot(s[i + 1..])
  }

  /** The shape test accepts exactly what the regular expression accepts. */
  lemma EmailShapeIsRegex(s: string)
    ensures EmailShape(s) <==> MatchesEmailRegex(s)
  {
    if EmailShape(s) {
      ShapeToRegex(s);
    }
    if MatchesEmailRegex(s) {
      RegexToShape(s);
    }
  }

  lemma ShapeToRegex(s: string)
    requires EmailShape(s)
    ensures MatchesEmailRegex(s)
  {
    var i := IndexOf(s, '@');
    var d := s[i + 1..];
    var j' :| 0 < j' < |d| - 1 && d[j'] == '.';
    var j := i + 1 + j';
    var a, b, c := s[..i], s[i + 1..j], s[j + 1..];
    assert s[j] == '.';
    forall k | 0 <= k < |a| ensures PlainChar(a[k]) {
      assert a[k] == s[k];
    }
    forall k | 0 <= k < |b| ensures PlainChar(b[k]) {
      assert b[k] == d[k];
    }
    forall k | 0 <= k < |c| ensures PlainChar(c[k]) {
      assert c[k] == d[j' + 1 + k];
    }
  }

  lemma RegexToShape(s: string)
    requires MatchesEmailRegex(s)
    ensures EmailShape(s)
  {
    var i, j :| 0 < i && i + 1 < j < |s| - 1 && s[i] == '@' && s[j] == '.'
      && AllPlain(s[..i]) && AllPlain(s[i + 1..j]) && AllPlain(s[j + 1..]);
    var a, b, c := s[..i], s[i + 1..j], s[j + 1..];
    forall k | 0 <= k < |s| ensures !IsWhitespace(s[k]) && (k != i ==> s[k] != '@') {
      if k < i {
        assert s[k] == a[k];
      } else if i < k < j {
        assert s[k] == b[k - i - 1];
      } else if j < k {
        assert s[k] == c[k - j - 1];
      }
    }
    assert '@' in s;
    var i' := IndexOf(s, '@');
    assert i' == i;
    var d := s[i + 1..];
    assert '@' !in d by {
      forall k | 0 <= k < |d| ensures d[k] != '@' {
        assert d[k] == s[i + 1 + k];
      }
    }
    assert d[j - i - 1] == '.';
  }

  /** `isValidEmail(email)`: `undefined`, empty and blank input are invalid;
      otherwise the trimmed text must match the pattern. */
  function IsValidEmail(email: Option<string>): bool
  {
    match email
    case None => false
    case Some(e) => e != "" && Trim(e) != "" && EmailShape(Trim(e))
  }

  /** Missing, empty and whitespace-only input is never a valid email. */
  lemma BlankEmailInvalid(e: string)
    requires IsBlank(e)
    ensures !IsValidEmail(Some(e))
    ensures !IsValidEmail(None)
  {
  }

  /** Surrounding whitespace never matters. */
  lemma EmailValidityIgnoresTrim(e: string)
    ensures IsValidEmail(Some(e)) == IsValidEmail(Some(Trim(e)))
  {
    TrimIdempotent(e);
  }

  /** What a valid email looks like once trimmed: no whitespace, exactly one
      '@' with a non-empty part before it, and a '.' after it that is
      neither first nor last; and conversely every such text is valid. */
  lemma ValidEmailShape(e: string)
    ensures IsValidEmail(Some(e)) <==> MatchesEmailRegex(Trim(e))
    ensures IsValidEmail(Some(e)) ==>
      var t := Trim(e);
      && NoWhitespace(t)
      && '@' in t
      && 0 < IndexOf(t, '@')
      && '@' !in t[IndexOf(t, '@') + 1..]
      && HasInnerDot(t[IndexOf(t, '@') + 1..])
  {
    EmailShapeIsRegex(Trim(e));
    if MatchesEmailRegex(Trim(e)) {
      assert Trim(e) != "";
      assert e != "";
    }
  }

  /** `isValidContact(contact)`: a name, and either a phone or a valid email. */
  function IsValidContact(contact: Option<Contact>): bool
  {
    match contact
    case None => false
    case Some(c) =>
      var hasName := !IsBlank(c.name);
      var hasPhone := !IsBlank(c.phone);
      var hasValidEmail := IsValidEmail(Some(c.email));
      hasName && (hasPhone || hasValidEmail)
  }

  /** The phone number is not format-checked: with a name present, any
      non-blank phone makes the contact valid whatever its email. */
  lemma PhoneNotFormatChecked(c: Contact, phone: string)
    requires !IsBlank(c.name) && !IsBlank(phone)
    ensures IsValidContact(Some(c.(phone := phone)))
  {
  }

  /** A contact is valid exactly when it has a name and can be reached. */
  lemma ValidContactCharacterised(c: Contact)
    ensures IsValidContact(Some(c)) <==>
      !AllWhitespace(c.name) && (!AllWhitespace(c.phone) || MatchesEmailRegex(Trim(c.email)))
    ensures !IsValidContact(None)
  {
    ValidEmailShape(c.email);
  }

  /** Every valid contact has at least one non-empty channel, which is what
      the alert addresses (the empty string is blank). */
  lemma ValidContactReachable(c: Contact)
    requires IsValidContact(Some(c))
    ensures c.phone != "" || c.email != ""
  {
    assert Trim("") == "";
  }
}
