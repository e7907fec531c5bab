/**
 * The kinds of DateTimeException the modelled code throws. Message text is
 * not modelled; each kind keeps the values its message reports.
 */
module Errors {
  import opened Fields

  datatype Error =
      /** The constructor's bound check failed: the message names the field, the range and the value. */
    | OutOfBounds(field: Field, min: int, max: int, value: int)
      /** A conversion needs a finer granularity; the message reports the granularity found. */
    | MissingField(found: Field)
      /** An offset date-time was requested but no offset was parsed. */
    | NoZoneOffset
      /** A minimum-granularity guard failed; the message names the field that was asked for. */
    | FieldNotFound(required: Field)
      /** A java.time factory rejected a component (out of its range, or not a real calendar date). */
    | InvalidValue
}
