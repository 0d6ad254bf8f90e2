/**
 * The type converters the cache uses to store dates: a `java.util.Date` is
 * kept as its `Long` millisecond timestamp, and `null` stays `null`.
 */
module Converters {
  import opened Wrappers
  import opened CivilCalendar

  /** A `java.util.Date`: an instant, `time` milliseconds after 1970-01-01T00:00:00Z. */
  datatype Instant = Instant(time: int)

  /** `fromTimestamp(value)`: `value?.let { Date(it) }` */
  function FromTimestamp(value: Option<int>): (date: Option<Instant>)
    ensures date.None? <==> value.None?
    ensures value.Some? ==> date.value.time == value.value
  {
    match value
    case None => None
    case Some(millis) => Some(Instant(millis))
  }

  /** `dateToTimestamp(date)`: `date?.time` */
  function DateToTimestamp(date: Option<Instant>): (value: Option<int>)
    ensures value.None? <==> date.None?
    ensures date.Some? ==> value.value == date.value.time
  {
    match date
    case None => None
    case Some(instant) => Some(instant.time)
  }

  /** A stored timestamp reads back as the same timestamp. */
  lemma TimestampRoundTrip(value: Option<int>)
    ensures DateToTimestamp(FromTimestamp(value)) == value
  {
  }

  /** A date stored and read back is the same date. */
  lemma DateRoundTrip(date: Option<Instant>)
    ensures FromTimestamp(DateToTimestamp(date)) == date
  {
  }

  const MILLIS_PER_DAY := 86_400_000

  /** The instant at which a civil day begins, in UTC. */
  function StartOfDay(d: Date): Instant
  {
    Instant((DayNumber(d) - DayNumber(CivilDate(1970, 1, 1))) * MILLIS_PER_DAY)
  }

  /**
   * Stored as the instants at which they begin, days compare as timestamps
   * exactly as they compare in the calendar, and distinct days get distinct
   * timestamps: the table's `closeApproachDate` comparisons are calendar
   * comparisons.
   */
  lemma StoredOrder(d: Date, e: Date)
    ensures AtOrBefore(d, e) <==> DateToTimestamp(Some(StartOfDay(d))).value <= DateToTimestamp(Some(StartOfDay(e))).value
    ensures d == e <==> DateToTimestamp(Some(StartOfDay(d))) == DateToTimestamp(Some(StartOfDay(e)))
  {
    DayNumberOrder(d, e);
    DayNumberOrder(e, d);
    if DayNumber(d) == DayNumber(e) {
      DayNumberInjective(d, e);
    }
  }
}
