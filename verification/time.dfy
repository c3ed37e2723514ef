/** Remaining-time decomposition, formatting and the disclaimer bands
    (src/utils/time.ts). */
module Time {
  import opened Base
  import opened Text
  import opened AppConstants

  datatype TimeRemaining = TimeRemaining(days: int, hours: int, mins: int, secs: int)

  /** The shape `CalculateTimeRemaining` produces. */
  predicate Normalised(t: TimeRemaining)
  {
    t.days >= 0 && 0 <= t.hours < 24 && 0 <= t.mins < 60 && 0 <= t.secs < 60
  }

  /** `getTotalSeconds` */
  function GetTotalSeconds(t: TimeRemaining): int
  {
    t.days * 86400 + t.hours * 3600 + t.mins * 60 + t.secs
  }

  /** Splits whole seconds into days, hours, minutes and seconds. */
  lemma Decompose(total: nat)
    ensures total / 86400 * 86400 + (total % 86400) / 3600 * 3600 + (total % 3600) / 60 * 60 + total % 60 == total
    ensures (total % 86400) / 3600 < 24 && (total % 3600) / 60 < 60
  {
  }

  /** `calculateTimeRemaining(diffMs)` */
  function CalculateTimeRemaining(diffMs: int): (t: TimeRemaining)
    ensures Normalised(t)
    ensures GetTotalSeconds(t) * 1000 <= Max(0, diffMs) < GetTotalSeconds(t) * 1000 + 1000
    ensures diffMs < 1000 ==> t == TimeRemaining(0, 0, 0, 0)
  {
    var total := Max(0, diffMs) / 1000;
    Decompose(total);
    TimeRemaining(total / 86400, (total % 86400) / 3600, (total % 3600) / 60, total % 60)
  }

  /** Recombining the parts of a whole number of seconds and splitting it
      again gives back the parts. */
  lemma DecomposeRoundTrip(t: TimeRemaining)
    requires Normalised(t)
    ensures CalculateTimeRemaining(GetTotalSeconds(t) * 1000) == t
  {
    var total := GetTotalSeconds(t);
    assert Max(0, total * 1000) / 1000 == total;
  }

  /** The total seconds of the decomposition are the whole seconds of the
      clamped input: `getTotalSeconds(calculateTimeRemaining(ms))`. */
  lemma TotalOfDecomposition(diffMs: int)
    ensures GetTotalSeconds(CalculateTimeRemaining(diffMs)) == Max(0, diffMs) / 1000
  {
  }

  /** `formatTimeRemaining`: "<days>d <hours>h <mins>m <secs>s". */
  function FormatTimeRemaining(t: TimeRemaining): string
  {
    IntToString(t.days) + "d " + IntToString(t.hours) + "h " + IntToString(t.mins) + "m " + IntToString(t.secs) + "s"
  }

  /** Reads one "<n><unit>" piece of a formatted remaining time. */
  function ReadPart(s: string, unit: string): Option<(nat, string)>
  {
    match ReadNat(s)
    case None => None
    case Some((n, rest)) =>
      match Expect(rest, unit)
      case None => None
      case Some(after) => Some((n, after))
  }

  /** The inverse of `FormatTimeRemaining` on non-negative parts. */
  function ParseTimeRemaining(s: string): Option<TimeRemaining>
  {
    match ReadPart(s, "d ")
    case None => None
    case Some((d, r1)) =>
      match ReadPart(r1, "h ")
      case None => None
      case Some((h, r2)) =>
        match ReadPart(r2, "m ")
        case None => None
        case Some((m, r3)) =>
          match ReadPart(r3, "s")
          case None => None
          case Some((sec, r4)) => if r4 == "" then Some(TimeRemaining(d, h, m, sec)) else None
  }

  lemma ReadPartOf(n: nat, unit: string, rest: string)
    requires |unit| > 0 && !IsDigit(unit[0])
    ensures ReadPart(NatToString(n) + unit + rest, unit) == Some((n, rest))
  {
    assert NatToString(n) + unit + rest == NatToString(n) + (unit + rest);
    ReadNatOfNumeral(n, unit + rest);
    ExpectLiteral(unit, rest);
  }

  /** The formatted string is unambiguous: every non-negative remaining time
      can be read back from it. */
  lemma FormatParseRoundTrip(t: TimeRemaining)
    requires t.days >= 0 && t.hours >= 0 && t.mins >= 0 && t.secs >= 0
    ensures ParseTimeRemaining(FormatTimeRemaining(t)) == Some(t)
  {
    var d, h, m, s := NatToString(t.days), NatToString(t.hours), NatToString(t.mins), NatToString(t.secs);
    var r4 := s + "s";
    var r3 := m + "m " + r4;
    var r2 := h + "h " + r3;
    assert FormatTimeRemaining(t) == d + "d " + r2;
    ReadPartOf(t.days, "d ", r2);
    ReadPartOf(t.hours, "h ", r3);
    ReadPartOf(t.mins, "m ", r4);
    ReadPartOf(t.secs, "s", "");
    assert s + "s" + "" == r4;
  }

  // ---------------------------------------------------------------------
  // Disclaimer style

  /** The theme colour the disclaimer is drawn in. */
  datatype DisclaimerColour = ErrorColour | TertiaryColour | SecondaryColour | MutedColour

  /** Colour band and font size of `getDisclaimerStyle` (opacity is a
      presentation number and is not modelled). */
  datatype DisclaimerStyle = DisclaimerStyle(colour: DisclaimerColour, fontSize: int)

  /** `getDisclaimerStyle(totalSeconds)` */
  function GetDisclaimerStyle(totalSeconds: int): (st: DisclaimerStyle)
    ensures 14 <= st.fontSize <= 18
    ensures st.colour == ErrorColour <==> st.fontSize == 18
    ensures st.colour == TertiaryColour <==> st.fontSize == 16
    ensures st.colour == SecondaryColour <==> st.fontSize == 15
    ensures st.colour == MutedColour <==> st.fontSize == 14
  {
    if totalSeconds < 300 then DisclaimerStyle(ErrorColour, 18)
    else if totalSeconds < 3600 then DisclaimerStyle(TertiaryColour, 16)
    else if totalSeconds < 86400 then DisclaimerStyle(SecondaryColour, 15)
    else DisclaimerStyle(MutedColour, 14)
  }

  /** The font size shrinks, never grows, as more time remains. */
  lemma DisclaimerFontNonIncreasing(a: int, b: int)
    requires a <= b
    ensures GetDisclaimerStyle(b).fontSize <= GetDisclaimerStyle(a).fontSize
  {
  }

  /** The four bands, with strict upper bounds and their font sizes: the error
      band is exactly the time below the urgent threshold, so 300 s itself is
      not in it. */
  lemma DisclaimerBands(totalSeconds: int)
    ensures GetDisclaimerStyle(totalSeconds).colour == ErrorColour <==> totalSeconds < URGENT_THRESHOLD_SECS
    ensures GetDisclaimerStyle(totalSeconds).colour == TertiaryColour <==> URGENT_THRESHOLD_SECS <= totalSeconds < WARNING_THRESHOLD_SECS
    ensures GetDisclaimerStyle(totalSeconds).colour == SecondaryColour <==> WARNING_THRESHOLD_SECS <= totalSeconds < 24 * 3600
    ensures GetDisclaimerStyle(totalSeconds).colour == MutedColour <==> totalSeconds >= 24 * 3600
    ensures GetDisclaimerStyle(URGENT_THRESHOLD_SECS).colour != ErrorColour
    ensures totalSeconds < URGENT_THRESHOLD_SECS ==> GetDisclaimerStyle(totalSeconds).fontSize == 18
    ensures URGENT_THRESHOLD_SECS <= totalSeconds < WARNING_THRESHOLD_SECS ==> GetDisclaimerStyle(totalSeconds).fontSize == 16
    ensures WARNING_THRESHOLD_SECS <= totalSeconds < 24 * 3600 ==> GetDisclaimerStyle(totalSeconds).fontSize == 15
    ensures totalSeconds >= 24 * 3600 ==> GetDisclaimerStyle(totalSeconds).fontSize == 14
  {
  }

  /** Colour and font size always move together: each band has its own size. */
  lemma DisclaimerSizeDeterminesColour(a: int, b: int)
    ensures GetDisclaimerStyle(a).fontSize == GetDisclaimerStyle(b).fontSize
        <==> GetDisclaimerStyle(a).colour == GetDisclaimerStyle(b).colour
  {
  }
}
