/** The parts of java.time the model needs: a wall-clock date-time, a UTC offset and their pair. */
module Time {

  const NANOS_PER_DAY: nat := 86_400_000_000_000

  /** A nanosecond within one day. */
  type NanoOfDay = n: nat | n < NANOS_PER_DAY

  /** A date-time without offset, as java.time stores it: the day since 1970-01-01 and the nanosecond of that day. */
  datatype LocalDateTime = LocalDateTime(epochDay: int, nanoOfDay: NanoOfDay)

  /** An offset from UTC in seconds. */
  datatype ZoneOffset = ZoneOffset(totalSeconds: int)

  const UTC: ZoneOffset := ZoneOffset(0)

  /** A date-time with an offset from UTC. */
  datatype OffsetDateTime = OffsetDateTime(dateTime: LocalDateTime, offset: ZoneOffset)

  /** `LocalDateTime.atOffset(offset)`: pairs the date-time with the offset, no shift. */
  function AtOffset(t: LocalDateTime, offset: ZoneOffset): (o: OffsetDateTime)
    ensures o.dateTime == t && o.offset == offset
  {
    OffsetDateTime(t, offset)
  }

  /** `OffsetDateTime.toLocalDateTime()`: drops the offset, no shift. */
  function ToLocalDateTime(o: OffsetDateTime): (t: LocalDateTime)
    ensures AtOffset(t, o.offset) == o
  {
    o.dateTime
  }
}
