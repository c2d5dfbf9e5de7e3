/**
 Time values as the analysis sees them. Parsing timestamp text, the IANA time
 zone database and the civil-calendar arithmetic are library behaviour; they
 are passed in as a `TimeZoneDb` value whose functions are left uninterpreted.
 */
module TimeZones {
  import opened Wrappers

  /** An absolute instant (nanoseconds since the Unix epoch, UTC). */
  type Instant = int

  /** A calendar date, as its proleptic Gregorian day ordinal; the order of
      ordinals is the order of Python `datetime.date` values. */
  type Date = int

  /** An hour of the day. */
  type Hour = h: int | 0 <= h < 24

  /** The zone a timestamp carries after parsing with `utc=True`. */
  const Utc: string := "UTC"

  /** A time-zone-aware timestamp: the instant together with the zone it is
      expressed in. Converting between zones keeps the instant. */
  datatype LocalTime = LocalTime(instant: Instant, zone: string)

  /** Wall-clock calendar date and hour of a zoned timestamp. */
  datatype Civil = Civil(date: Date, hour: Hour)

  /** What `pd.to_datetime(..., utc=True)` makes of one timestamp text: an
      instant in UTC, the null value NaT (for texts pandas reads as null,
      such as "" or "NaT"), or a text it cannot read, which raises unless
      errors are coerced. */
  datatype Parsed = Instant(t: Instant) | NullText | Invalid

  /** The library behaviour the analysis depends on:
      - `parse`: reading one timestamp text;
      - `knows`: whether a zone identifier is accepted by the zone database;
      - `civil`: the local calendar date and hour of an instant in a zone. */
  datatype TimeZoneDb = TimeZoneDb(
    parse: string -> Parsed,
    knows: string -> bool,
    civil: (Instant, string) -> Civil)
}
