/** Application constants (src/constants/app.ts). */
module AppConstants {

  /** Check-in period given to a freshly created record, in hours. */
  const DEFAULT_PERIOD_HOURS: int := 1
  /** Interval of the live countdown ticker, in milliseconds. */
  const TIMER_TICK_MS: int := 1000
  /** At or below this many seconds the urgent check-in view and the red ring apply. */
  const URGENT_THRESHOLD_SECS: int := 300
  /** At or below this many seconds the progress ring turns yellow. */
  const WARNING_THRESHOLD_SECS: int := 3600

  const ALERT_SUBJECT: string := "Emergency Alert"
  const ALERT_BODY: string := "The user has not checked in as scheduled."

  const HOUR_TO_MS: int := 60 * 60 * 1000
  const MINUTE_TO_MS: int := 60 * 1000

  /** The constants agree with one another and with the values the rest of
      the source writes out as literals. */
  lemma ConstantsAgree()
    ensures HOUR_TO_MS == 3600000 && MINUTE_TO_MS == 60000
    ensures HOUR_TO_MS == 60 * MINUTE_TO_MS
    ensures HOUR_TO_MS == 3600 * TIMER_TICK_MS
    ensures 0 < URGENT_THRESHOLD_SECS < WARNING_THRESHOLD_SECS
    ensures URGENT_THRESHOLD_SECS == 300 && WARNING_THRESHOLD_SECS == 3600
    ensures DEFAULT_PERIOD_HOURS == 1
    ensures |ALERT_SUBJECT| == 15 && |ALERT_BODY| == 41
    ensures ALERT_SUBJECT == "Emergency Alert"
    ensures ALERT_BODY == "The user has not checked in as scheduled."
  {
  }
}

/** Tables of the setup screens (src/constants/setup.ts). */
module SetupConstants {
  import opened Types
  import opened Text

  datatype PeriodOption = PeriodOption(title: string, value: int)

  const PERIOD_OPTIONS: seq<PeriodOption> := [
    PeriodOption("1 hour", 1),
    PeriodOption("2 hours", 2),
    PeriodOption("4 hours", 4),
    PeriodOption("8 hours", 8),
    PeriodOption("12 hours", 12),
    PeriodOption("24 hours", 24)
  ]

  /** The contact fields in display order. */
  const CONTACT_FIELDS: seq<Field> := [Name, Phone, Email]

  /** The label the source writes for a whole number of hours. */
  function HoursLabel(v: nat): string
  {
    NatToString(v) + (if v == 1 then " hour" else " hours")
  }

  /** Every option is at least an hour, the options are strictly increasing,
      and each label names its own value with the right plural. */
  lemma PeriodOptionsWellFormed()
    ensures |PERIOD_OPTIONS| == 6
    ensures forall i :: 0 <= i < |PERIOD_OPTIONS| ==> PERIOD_OPTIONS[i].value >= 1
    ensures forall i, j :: 0 <= i < j < |PERIOD_OPTIONS| ==> PERIOD_OPTIONS[i].value < PERIOD_OPTIONS[j].value
    ensures forall i :: 0 <= i < |PERIOD_OPTIONS| ==> PERIOD_OPTIONS[i].title == HoursLabel(PERIOD_OPTIONS[i].value)
  {
    assert NatToString(1) == "1";
    assert NatToString(2) == "2";
    assert NatToString(4) == "4";
    assert NatToString(8) == "8";
    assert NatToString(12) == NatToString(1) + "2";
    assert NatToString(24) == NatToString(2) + "4";
  }

  /** The contact fields are name, phone and email, each exactly once. */
  lemma ContactFieldsComplete()
    ensures |CONTACT_FIELDS| == 3
    ensures CONTACT_FIELDS[0] == Name && CONTACT_FIELDS[1] == Phone && CONTACT_FIELDS[2] == Email
    ensures forall f: Field :: f in CONTACT_FIELDS
  {
    forall f: Field ensures f in CONTACT_FIELDS {
      match f
      case Name => assert CONTACT_FIELDS[0] == f;
      case Phone => assert CONTACT_FIELDS[1] == f;
      case Email => assert CONTACT_FIELDS[2] == f;
    }
  }
}
