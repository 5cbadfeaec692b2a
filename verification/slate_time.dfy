/** Instants, slate days and the half-open feed window.

    The UTC <-> Eastern conversions go through the operating system's time-zone
    database, so the model takes them as a parameter (`Calendar`) rather than
    computing them: every property proved here holds for any such calendar. */
module SlateTime {

  /** A UTC `DateTime`, as a tick count. */
  type Instant = int

  /** A calendar date (the `.Date` part of an Eastern wall-clock time). */
  type Day = int

  /** The two calendar facts the ingestion code reads off an instant:
      its UTC year (`DateTime.Year`) and its Eastern slate day
      (`ConvertTimeFromUtc(t, Eastern).Date`). */
  datatype Calendar = Calendar(yearOf: Instant -> int, slateDay: Instant -> Day)

  /** Membership of the half-open window `[from, to)` every feed filters by. */
  predicate InWindow(t: Instant, from: Instant, to: Instant) {
    from <= t < to
  }
}
