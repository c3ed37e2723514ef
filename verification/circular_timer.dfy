/** The countdown ring (src/components/CircularTimer.tsx): its colour band,
    its hh:mm:ss digits and the fraction of the period left. The ring's
    geometry (radius, circumference, dash offset) is left out. */
module CircularTimer {
  import opened Base
  import opened Text
  import opened AppConstants
  import Time

  datatype RingColour = UrgentRed | StatusYellow | SafeGreen

  /** The stroke colour; both bounds are inclusive. */
  function StrokeColour(remainingSeconds: int): RingColour
  {
    if remainingSeconds <= URGENT_THRESHOLD_SECS then UrgentRed
    else if remainingSeconds <= WARNING_THRESHOLD_SECS then StatusYellow
    else SafeGreen
  }

  /** The three two-character groups of the clock face. */
  datatype Clock = Clock(hh: string, mm: string, ss: string)

  function TwoDigits(n: int): string
  {
    PadStart(IntToString(n), 2, '0')
  }

  /** The digits shown for `remainingSeconds`; whole days are not shown. */
  function ClockDigits(remainingSeconds: int): Clock
  {
    var t := Time.CalculateTimeRemaining(remainingSeconds * 1000);
    Clock(TwoDigits(t.hours), TwoDigits(t.mins), TwoDigits(t.secs))
  }

  /** The fraction of the period left, 0 for a non-positive period. It is
      not clamped. */
  function ProgressFraction(remainingSeconds: int, totalSeconds: int): real
  {
    if totalSeconds > 0 then remainingSeconds as real / totalSeconds as real else 0.0
  }

  // ---------------------------------------------------------------------

  /** The colour bands: red up to 5 minutes, yellow up to an hour, green
      beyond. */
  lemma ColourBands(r: int)
    ensures StrokeColour(r) == UrgentRed <==> r <= 300
    ensures StrokeColour(r) == StatusYellow <==> 300 < r <= 3600
    ensures StrokeColour(r) == SafeGreen <==> r > 3600
  {
  }

  /** A two-digit group for a number below 100 is two digits with that
      value. */
  lemma TwoDigitsValue(n: nat)
    requires n < 100
    ensures |TwoDigits(n)| == 2 && AllDigits(TwoDigits(n))
    ensures DigitsValue(TwoDigits(n)) == n
  {
    var s := NatToString(n);
    if |s| < 2 {
      assert TwoDigits(n) == seq(1, _ => '0') + s;
      DigitsValueLeadingZeros(1, s);
    }
  }

  /** Below the days, a normalised record is the time of day. */
  lemma TimeOfDay(t: Time.TimeRemaining)
    requires Time.Normalised(t)
    ensures t.hours * 3600 + t.mins * 60 + t.secs == Time.GetTotalSeconds(t) % 86400
  {
    var rest := t.hours * 3600 + t.mins * 60 + t.secs;
    assert 0 <= rest < 86400;
    assert Time.GetTotalSeconds(t) == t.days * 86400 + rest;
  }

  /** The clock face shows the time left within the current day: read as
      numbers, the digits give back the remaining seconds modulo a day. */
  lemma ClockShowsTimeOfDay(remainingSeconds: int)
    ensures var c := ClockDigits(remainingSeconds);
      && |c.hh| == 2 && |c.mm| == 2 && |c.ss| == 2
      && AllDigits(c.hh) && AllDigits(c.mm) && AllDigits(c.ss)
      && DigitsValue(c.hh) * 3600 + DigitsValue(c.mm) * 60 + DigitsValue(c.ss) == Max(0, remainingSeconds) % 86400
  {
    var t := Time.CalculateTimeRemaining(remainingSeconds * 1000);
    Time.TotalOfDecomposition(remainingSeconds * 1000);
    assert Max(0, remainingSeconds * 1000) / 1000 == Max(0, remainingSeconds);
    TimeOfDay(t);
    TwoDigitsValue(t.hours);
    TwoDigitsValue(t.mins);
    TwoDigitsValue(t.secs);
  }

  /** A day and an hour left shows as 01:00:00. */
  lemma DaysDropped()
    ensures ClockDigits(90000) == Clock("01", "00", "00")
  {
    assert Time.CalculateTimeRemaining(90000 * 1000) == Time.TimeRemaining(1, 1, 0, 0);
    assert NatToString(1) == "1";
    assert NatToString(0) == "0";
  }

  /** The fraction is 0 without a period and lies in [0, 1] while the time
      left is within the period. */
  lemma FractionRange(remainingSeconds: int, totalSeconds: int)
    ensures totalSeconds <= 0 ==> ProgressFraction(remainingSeconds, totalSeconds) == 0.0
    ensures 0 <= remainingSeconds <= totalSeconds && totalSeconds > 0 ==>
      0.0 <= ProgressFraction(remainingSeconds, totalSeconds) <= 1.0
  {
  }
}
