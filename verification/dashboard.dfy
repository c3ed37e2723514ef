/** The period card of the dashboard (src/screens/SafetyDashboardScreen.tsx):
    a period in seconds shown in whole hours, as days and hours. */
module SafetyDashboard {
  import opened Base
  import opened Text

  /** `formatPeriod(totalSeconds)`. Leftover seconds below an hour are
      dropped; `%` is only reached with a positive number of hours, where
      JavaScript's remainder agrees with Dafny's. */
  function FormatPeriod(totalSeconds: int): string
  {
    var hours := totalSeconds / 3600;
    var days := hours / 24;
    var remainingHours := hours % 24;
    if days > 0 && remainingHours > 0 then IntToString(days) + "d " + IntToString(remainingHours) + "h"
    else if days > 0 then IntToString(days) + " day" + (if days > 1 then "s" else "")
    else IntToString(hours) + " hour" + (if hours != 1 then "s" else "")
  }
}

/** Reading the period card's text back, which shows that the card is
    unambiguous. */
module PeriodCardText {
  import opened Base
  import opened Text
  import opened SafetyDashboard

  /** Reads a formatted period back as whole hours: a number followed by
      "d <hours>h", " day", " days", " hour" or " hours". */
  function ParsePeriod(s: string): Option<int>
  {
    match ReadNat(s)
    case None => None
    case Some((n, rest)) =>
      if |rest| > 0 && rest[0] == 'd' then ParseHoursPart(n, rest) else ParseUnit(n, rest)
  }

  /** The "d <hours>h" form after a number of days. */
  function ParseHoursPart(days: nat, rest: string): Option<int>
  {
    match Expect(rest, "d ")
    case None => None
    case Some(r1) =>
      match ReadNat(r1)
      case None => None
      case Some((h, r2)) => if r2 == "h" then Some(days * 24 + h) else None
  }

  /** A unit word after the number. */
  function ParseUnit(n: nat, rest: string): Option<int>
  {
    if rest == " day" || rest == " days" then Some(n * 24)
    else if rest == " hour" || rest == " hours" then Some(n)
    else None
  }

  lemma {:induction false} ParseDaysAndHours(days: nat, hours: nat)
    ensures ParsePeriod(NatToString(days) + ("d " + (NatToString(hours) + "h"))) == Some(days * 24 + hours)
  {
    var h := NatToString(hours) + "h";
    var tail := "d " + h;
    ReadNatOfNumeral(days, tail);
    ExpectLiteral("d ", h);
    ReadNatOfNumeral(hours, "h");
    assert ParseHoursPart(days, tail) == Some(days * 24 + hours);
  }

  lemma {:induction false} ParseUnitWord(n: nat, unit: string)
    requires unit == " day" || unit == " days" || unit == " hour" || unit == " hours"
    ensures ParsePeriod(NatToString(n) + unit) == Some(if unit == " day" || unit == " days" then n * 24 else n)
  {
    ReadNatOfNumeral(n, unit);
  }

  lemma {:induction false} RoundTripDaysAndHours(totalSeconds: int, days: nat, rh: nat)
    requires totalSeconds / 3600 == days * 24 + rh && days > 0 && 0 < rh < 24
    ensures ParsePeriod(FormatPeriod(totalSeconds)) == Some(totalSeconds / 3600)
  {
    ParseDaysAndHours(days, rh);
    var hours := totalSeconds / 3600;
    assert hours / 24 == days && hours % 24 == rh;
    assert FormatPeriod(totalSeconds) == NatToString(days) + ("d " + (NatToString(rh) + "h"));
  }

  lemma {:induction false} RoundTripWholeDays(totalSeconds: int, days: nat)
    requires totalSeconds / 3600 == days * 24 && days > 0
    ensures ParsePeriod(FormatPeriod(totalSeconds)) == Some(totalSeconds / 3600)
  {
    var unit := if days > 1 then " days" else " day";
    ParseUnitWord(days, unit);
    var hours := totalSeconds / 3600;
    assert hours / 24 == days && hours % 24 == 0;
    assert FormatPeriod(totalSeconds) == NatToString(days) + unit;
  }

  lemma {:induction false} RoundTripHours(totalSeconds: int, hours: nat)
    requires totalSeconds / 3600 == hours && hours < 24
    ensures ParsePeriod(FormatPeriod(totalSeconds)) == Some(totalSeconds / 3600)
  {
    var unit := if hours != 1 then " hours" else " hour";
    ParseUnitWord(hours, unit);
    assert FormatPeriod(totalSeconds) == NatToString(hours) + unit;
  }

  /** The card loses nothing but the seconds below a whole hour: every
      non-negative period reads back as its number of whole hours. */
  lemma {:induction false} FormatParseRoundTrip(totalSeconds: int)
    requires totalSeconds >= 0
    ensures ParsePeriod(FormatPeriod(totalSeconds)) == Some(totalSeconds / 3600)
  {
    var hours := totalSeconds / 3600;
    var days := hours / 24;
    var rh := hours % 24;
    if days > 0 && rh > 0 {
      RoundTripDaysAndHours(totalSeconds, days, rh);
    } else if days > 0 {
      RoundTripWholeDays(totalSeconds, days);
    } else {
      RoundTripHours(totalSeconds, hours);
    }
  }

  /** The singular is used for exactly one hour or one day. */
  lemma Pluralisation()
    ensures FormatPeriod(0) == "0 hours"
    ensures FormatPeriod(7199) == "1 hour"
    ensures FormatPeriod(86400) == "1 day"
    ensures FormatPeriod(172800) == "2 days"
    ensures FormatPeriod(90000) == "1d 1h"
  {
    assert NatToString(0) == "0";
    assert NatToString(1) == "1";
    assert NatToString(2) == "2";
    assert 7199 / 3600 == 1;
    assert 86400 / 3600 == 24;
    assert 172800 / 3600 == 48;
    assert 90000 / 3600 == 25;
  }
}
