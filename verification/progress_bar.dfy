/** The thin bar under the dashboard (src/components/BottomProgressBar.tsx):
    the fraction of the period left, clamped to [0, 1], in the ring's
    colours. */
module BottomProgressBar {
  import opened AppConstants
  import CircularTimer

  /** The clamped fraction. */
  function Fraction(remainingSeconds: int, totalSeconds: int): (f: real)
    ensures 0.0 <= f <= 1.0
    ensures totalSeconds <= 0 ==> f == 0.0
  {
    if totalSeconds > 0 then
      var raw := remainingSeconds as real / totalSeconds as real;
      var upper := if raw < 1.0 then raw else 1.0;
      if upper > 0.0 then upper else 0.0
    else 0.0
  }

  /** The bar's colour, written out separately from the ring's. */
  function Colour(remainingSeconds: int): CircularTimer.RingColour
  {
    if remainingSeconds <= URGENT_THRESHOLD_SECS then CircularTimer.UrgentRed
    else if remainingSeconds <= WARNING_THRESHOLD_SECS then CircularTimer.StatusYellow
    else CircularTimer.SafeGreen
  }

  // ---------------------------------------------------------------------

  /** The bar shows the ring's fraction, clamped: full once the time left
      reaches the period, empty once it reaches zero. */
  lemma FractionIsClampedRing(remainingSeconds: int, totalSeconds: int)
    requires totalSeconds > 0
    ensures var ring := CircularTimer.ProgressFraction(remainingSeconds, totalSeconds);
      && (0.0 <= ring <= 1.0 ==> Fraction(remainingSeconds, totalSeconds) == ring)
      && (remainingSeconds >= totalSeconds ==> Fraction(remainingSeconds, totalSeconds) == 1.0)
      && (remainingSeconds <= 0 ==> Fraction(remainingSeconds, totalSeconds) == 0.0)
  {
    var raw := remainingSeconds as real / totalSeconds as real;
    if remainingSeconds >= totalSeconds {
      assert raw >= 1.0;
    }
    if remainingSeconds <= 0 {
      assert raw <= 0.0;
    }
  }

  /** The bar and the ring always agree on the colour. */
  lemma SameBandsAsRing(remainingSeconds: int)
    ensures Colour(remainingSeconds) == CircularTimer.StrokeColour(remainingSeconds)
  {
  }
}
