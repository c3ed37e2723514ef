/** The deadline arithmetic the hooks repeat inline
    (src/hooks/useCheckInTimer.ts, src/hooks/useAppInitialization.ts):
    `deadline = lastCheckIn + period * HOUR_TO_MS` and whole seconds left,
    `max(0, floor((deadline - now) / 1000))`. */
module Deadline {
  import opened Base
  import opened Types
  import opened AppConstants
  import Time

  /** The hooks' guard `lastCheckIn && period && setupComplete !== false`:
      a period of 0 counts as unset, an absent flag counts as armed. */
  predicate Armed(s: Settings)
  {
    s.lastCheckIn.Some? && s.period != 0 && s.setupComplete != Some(false)
  }

  function DeadlineOf(lastCheckIn: int, period: int): int
  {
    lastCheckIn + period * HOUR_TO_MS
  }

  /** Whole seconds left before `deadline` at time `now`, never negative.
      (Dafny's `/` by a positive divisor rounds down like `Math.floor`.) */
  function SecondsLeft(deadline: int, now: int): (secs: nat)
    ensures secs * 1000 <= Max(0, deadline - now) < secs * 1000 + 1000
  {
    Max(0, (deadline - now) / 1000)
  }

  /** A breach is reported as soon as less than one whole second is left,
      that is up to 999 ms before the exact deadline. */
  lemma BreachBoundary(deadline: int, now: int)
    ensures SecondsLeft(deadline, now) == 0 <==> deadline - now < 1000
    ensures SecondsLeft(deadline, deadline) == 0
    ensures SecondsLeft(deadline, deadline - 1000) == 1
  {
  }

  /** Right after a check-in the whole period is left. */
  lemma FullPeriodAtCheckIn(lastCheckIn: int, period: int)
    requires period >= 0
    ensures SecondsLeft(DeadlineOf(lastCheckIn, period), lastCheckIn) == period * 3600
  {
  }

  /** Time only runs down: a later clock never shows more seconds left. */
  lemma SecondsLeftMonotone(deadline: int, now: int, later: int)
    requires now <= later
    ensures SecondsLeft(deadline, later) <= SecondsLeft(deadline, now)
  {
  }

  /** The hooks' `max(0, floor(diff / 1000))` agrees with the utility's
      `floor(max(0, diff) / 1000)` as recombined by `getTotalSeconds`. */
  lemma AgreesWithTimeUtility(deadline: int, now: int)
    ensures SecondsLeft(deadline, now) == Time.GetTotalSeconds(Time.CalculateTimeRemaining(deadline - now))
  {
    Time.TotalOfDecomposition(deadline - now);
  }
}
