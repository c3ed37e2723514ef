/** The period step of the current setup flow (src/screens/PeriodScreen.tsx):
    a days picker (0..7) and an hours picker (0..23) whose sum in hours is
    saved, with one hour as the fallback. */
module PeriodScreen {
  import opened Base
  import NumberScrollPicker

  const DAYS_MIN: int := 0
  const DAYS_MAX: int := 7
  const HOURS_MIN: int := 0
  const HOURS_MAX: int := 23

  /** The initial selection: 0 days, 1 hour. */
  const INITIAL_DAYS: int := 0
  const INITIAL_HOURS: int := 1

  /** `handleFinish`: the period handed to `onSave`. */
  function Finish(days: int, hours: int): (period: int)
    ensures period >= 1
    ensures days * 24 + hours > 0 ==> period == days * 24 + hours
  {
    var p := days * 24 + hours;
    if p > 0 then p else 1
  }

  /** The selection the pickers can hold. */
  predicate InRange(days: int, hours: int)
  {
    DAYS_MIN <= days <= DAYS_MAX && HOURS_MIN <= hours <= HOURS_MAX
  }

  // ---------------------------------------------------------------------

  /** A selection of nothing saves one hour, and the initial selection
      saves one hour too. */
  lemma FallbackAndInitial()
    ensures Finish(0, 0) == 1
    ensures Finish(INITIAL_DAYS, INITIAL_HOURS) == 1
  {
  }

  /** Any selection the pickers allow saves between 1 and 191 hours, and a
      non-empty selection can be read back from the saved period. */
  lemma SavedPeriodBounds(days: int, hours: int)
    requires InRange(days, hours)
    ensures 1 <= Finish(days, hours) <= DAYS_MAX * 24 + HOURS_MAX
    ensures (days, hours) != (0, 0) ==> Finish(days, hours) / 24 == days && Finish(days, hours) % 24 == hours
  {
  }

  /** Whatever the user scrolls, the snapped selection saves a period of 1
      to 191 hours. */
  lemma SnappedPeriodBounds(dayOffset: int, hourOffset: int)
    ensures var d := NumberScrollPicker.Snap(dayOffset, DAYS_MIN, DAYS_MAX).value;
      var h := NumberScrollPicker.Snap(hourOffset, HOURS_MIN, HOURS_MAX).value;
      InRange(d, h) && 1 <= Finish(d, h) <= 191
  {
  }
}
