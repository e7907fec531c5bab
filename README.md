# Granularity-tracked date-time (ethlo Internet Time Utility)

This project models the immutable `DateTime` holder of the ethlo Internet Time
Utility and its `LeapSecondException`, and proves properties of the model in
Dafny.

A `DateTime` records the *granularity* of a parsed timestamp. That is the last
field the parser found: YEAR, MONTH, DAY, HOUR, MINUTE, SECOND or NANO. Beside
it sit seven Java `int` components and an optional timezone offset. The
factories store 0 for the components finer than the granularity. The public
constructor accepts any components and does not enforce this.

The constructor checks each component except the year against an upper bound.
Factories fix the granularity. A component is "included" when its field's
ordinal is at most the granularity's ordinal. Conversions to `YearMonth`,
`LocalDate`, `LocalDateTime` and `OffsetDateTime` are allowed only from a fine
enough granularity. Once allowed, they hand the stored components to the
java.time factories, which may still reject them (for example February 30, or
second 60).

Files and modules:

- `results.dfy` (`Results`): `Option`, and `Result` with `:-` support. A thrown
  exception is modelled as an `Err`.
- `fields.dfy` (`Fields`): the `Field` enumeration in declaration order, and its
  ordinal `Ord`.
- `errors.dfy` (`Errors`): the kinds of `DateTimeException` thrown. These are
  out-of-bounds (field, range, value), missing field (granularity found), no
  zone offset, field not found (field asked for), and a value rejected by
  java.time.
- `java_time.dfy` (`JavaTime`): the java.time target records. It also holds how
  their `of` factories validate. This uses the ISO-8601 proleptic Gregorian
  calendar: the year range ±999,999,999, month 1-12, day 1 to the month's real
  length (with the Gregorian leap-year rule), hour 0-23, minute 0-59, second
  0-59, nano 0-999,999,999.
- `date_time.dfy` (`DateTimes`): `DateTime.java`. It has the datatype, the
  bound check, the constructor, the factories, `includesGranularity`, the
  conversions and `assertMinGranularity`. The Java getters are the datatype's
  field selectors.
- `date_time_properties.dfy` (`DateTimeProperties`): lemmas that relate several
  operations.
- `leap_second.dfy` (`LeapSeconds`): `LeapSecondException.java` as an immutable
  record.

Behaviour of the code worth knowing:

- Only upper bounds are checked. `assertSize` receives a minimum but uses it
  only in the message. `ofYear` itself stores month 0 and day 0.
- The six-argument `of` (granularity MINUTE) accepts an absent offset. The
  value is built, and only `toOffsetDatetime` later fails with "no zone
  offset".
- The missing-field error of the conversions reports just the granularity
  found, not the minimum required. `assertMinGranularity` reports the field
  asked for.
- The leap-second corrected timestamp and the June 30 / December 31 boundary
  test are not computed by the modelled code. `LeapSecondException` only
  stores the three values handed to it.

The factories pass 0 for the absent components, so a checked minimum would
make `ofYear`, `ofYearMonth` and `ofDate` throw. The unchecked minimum is what
the code depends on.

## Model

| member | source | states |
|---|---|---|
| `Fields.Field.Ord` | src/main/java/com/ethlo/time/DateTime.java:99 | the ordinal is below 7 and is the field's position in declaration order YEAR < MONTH < DAY < HOUR < MINUTE < SECOND < NANO |
| `Fields.AtMostIsPrefix` | src/main/java/com/ethlo/time/DateTime.java:97-100 | a field is no finer than `f` iff it occurs in the declaration-order prefix ending with `f` |
| `JavaTime.LengthOfMonth` | src/main/java/com/ethlo/time/DateTime.java:202 | a month has 28-31 days; 29 exactly for February of a Gregorian leap year, 31 exactly for months 1, 3, 5, 7, 8, 10, 12 |
| `JavaTime.YearMonthOf` | src/main/java/com/ethlo/time/DateTime.java:156 | succeeds iff the year is in java.time's range and the month in 1-12, and then holds exactly those values |
| `JavaTime.LocalDateOf` | src/main/java/com/ethlo/time/DateTime.java:202 | succeeds iff the year-month is valid and the day lies between 1 and the month's length; holds exactly its arguments |
| `JavaTime.LocalDateTimeOf` | src/main/java/com/ethlo/time/DateTime.java:170 | succeeds iff the date is valid and hour, minute, second (0-59, no leap second) and nano are in range; holds exactly its arguments |
| `JavaTime.OffsetDateTimeOf` | src/main/java/com/ethlo/time/DateTime.java:184 | succeeds iff the local date-time does; carries that date-time and the offset unchanged |
| `JavaTime.February29` | src/main/java/com/ethlo/time/DateTime.java:202 | February 29 is a valid date exactly in leap years |
| `DateTimes.DateTime.IncludesGranularity` | src/main/java/com/ethlo/time/DateTime.java:97-100 | holds iff the field is declared no later than the granularity, i.e. its ordinal is at most the granularity's |
| `DateTimes.AssertSize` | src/main/java/com/ethlo/time/DateTime.java:88-95 | passes the value through iff it is at most `max`; otherwise fails naming the field, the range and the value; the minimum is never checked |
| `DateTimes.Make` | src/main/java/com/ethlo/time/DateTime.java:45-56 | succeeds iff month ≤ 12, day ≤ 31, hour ≤ 23, minute ≤ 59, second ≤ 60 and nano ≤ 999,999,999; the value stores every argument unchanged; on failure the first offending field in constructor order is reported with its range and value |
| `DateTimes.Of` | src/main/java/com/ethlo/time/DateTime.java:58-61 | granularity SECOND, every argument stored, any offset (even none) accepted; fails only with an out-of-bounds error |
| `DateTimes.OfYear` | src/main/java/com/ethlo/time/DateTime.java:63-66 | always succeeds: granularity YEAR, all other components 0, no offset |
| `DateTimes.OfYearMonth` | src/main/java/com/ethlo/time/DateTime.java:68-71 | succeeds iff month ≤ 12: granularity MONTH, finer components 0, no offset; otherwise a MONTH bounds error |
| `DateTimes.OfDate` | src/main/java/com/ethlo/time/DateTime.java:73-76 | succeeds iff month ≤ 12 and day ≤ 31: granularity DAY, finer components 0, no offset; MONTH is reported before DAY |
| `DateTimes.OfMinute` | src/main/java/com/ethlo/time/DateTime.java:78-81 | succeeds iff month, day, hour and minute are within bounds: granularity MINUTE, second and nano 0, offset stored even when absent |
| `DateTimes.DateTime.ToYearMonth` | src/main/java/com/ethlo/time/DateTime.java:152-159 | below MONTH fails with missing-field reporting the granularity; at or above it succeeds iff java.time accepts (year, month) and returns exactly those; any failure there is java.time's rejection |
| `DateTimes.DateTime.ToLocalDatetime` | src/main/java/com/ethlo/time/DateTime.java:166-173 | below MINUTE fails with missing-field; at or above it succeeds iff the date and time are valid for java.time, returning the stored components; any failure there is java.time's rejection |
| `DateTimes.DateTime.ToOffsetDatetime` | src/main/java/com/ethlo/time/DateTime.java:180-191 | no offset always fails with no-zone-offset, whatever the granularity, and no-zone-offset arises only then; with an offset and granularity below MINUTE fails with missing-field; otherwise succeeds iff date and time are valid, carrying the components and the offset, and any failure is java.time's rejection |
| `DateTimes.DateTime.ToLocalDate` | src/main/java/com/ethlo/time/DateTime.java:198-205 | below DAY fails with missing-field; at or above it succeeds iff (year, month, day) is a real Gregorian date, returning those components; any failure there is java.time's rejection |
| `DateTimes.DateTime.AssertMinGranularity` | src/main/java/com/ethlo/time/DateTime.java:217-224 | succeeds iff the field is no finer than the granularity, and then returns the identical value; otherwise fails naming the field asked for |
| `DateTimeProperties.IncludedAmong` | src/main/java/com/ethlo/time/DateTime.java:97-100 | helper for the next row: keeps exactly those fields of a list that the value includes |
| `DateTimeProperties.IncludedFieldsArePrefix` | src/main/java/com/ethlo/time/DateTime.java:97-100 | the fields a value includes are exactly the declaration-order prefix ending with its granularity, which is the last of them |
| `DateTimeProperties.IncludesMonotone` | src/main/java/com/ethlo/time/DateTime.java:99 | including a field implies including every coarser field |
| `DateTimeProperties.IncludesYearAndOwnField` | src/main/java/com/ethlo/time/DateTime.java:212-215 | every value includes YEAR and its own `getField()` |
| `DateTimeProperties.MaximaAccepted` | src/main/java/com/ethlo/time/DateTime.java:49-54 | every component equal to its maximum is accepted |
| `DateTimeProperties.LowerBoundsNotChecked` | src/main/java/com/ethlo/time/DateTime.java:90-94 | any combination of components each at or below zero (independently), with any year and any offset, is accepted and stored |
| `DateTimeProperties.AccessorsReturnStored` | src/main/java/com/ethlo/time/DateTime.java:102-145 | after construction every getter, including the granularity and the offset, returns the constructor's argument whatever the granularity |
| `DateTimeProperties.ThresholdsMatchGuard` | src/main/java/com/ethlo/time/DateTime.java:217-224 | each conversion fails with missing-field exactly when `assertMinGranularity` of its threshold (MONTH, DAY, MINUTE; MINUTE with an offset) fails |
| `DateTimeProperties.ConversionsNest` | src/main/java/com/ethlo/time/DateTime.java:152-205 | a successful offset conversion implies the local date-time one, which implies the date one, which implies the year-month one, all on the same components |
| `DateTimeProperties.OffsetDatetimeNeedsOffset` | src/main/java/com/ethlo/time/DateTime.java:180-191 | the offset conversion succeeds iff the local date-time conversion does and an offset is present |
| `DateTimeProperties.OfThenToOffsetDatetime` | src/main/java/com/ethlo/time/DateTime.java:180-184 | the eight-argument factory followed by the offset conversion returns every component, the nano and the offset unchanged |
| `DateTimeProperties.ToOffsetDatetimeThenOf` | src/main/java/com/ethlo/time/DateTime.java:58-61 | the components of a SECOND value's offset date-time rebuild exactly that value |
| `DateTimeProperties.MinuteHasZeroSeconds` | src/main/java/com/ethlo/time/DateTime.java:78-81 | a MINUTE value converts to a local date-time with second and nano 0; without an offset it cannot become an offset date-time |
| `DateTimeProperties.LeapSecondNotConvertible` | src/main/java/com/ethlo/time/DateTime.java:53 | a stored second of 60 is accepted by construction, but both date-time conversions then fail |
| `DateTimeProperties.FactoryGranularities` | src/main/java/com/ethlo/time/DateTime.java:63-76 | a YEAR value has no year-month, a MONTH value has no date, a DAY value has no date-time; each fails with missing-field naming its granularity |
| `DateTimeProperties.CalendarCheckDeferred` | src/main/java/com/ethlo/time/DateTime.java:50 | for every month 1-12 and day ≤ 31 outside the month's real length, `ofDate` builds the value and `toLocalDate` rejects it through java.time |
| `DateTimeProperties.YearMonthCheckDeferred` | src/main/java/com/ethlo/time/DateTime.java:49 | every month ≤ 12 that java.time rejects (month below 1, or year out of range) is built by `ofYearMonth` and rejected by `toYearMonth` |
| `DateTimeProperties.February30Deferred` | src/main/java/com/ethlo/time/DateTime.java:198-205 | 2023-02-30 is built by `ofDate` and rejected by `toLocalDate` |
| `LeapSeconds.AccessorsReturnStored` | src/main/java/com/ethlo/time/LeapSecondException.java:31-51 | any triple is accepted, and each accessor returns its own constructor argument |

## Left out

- `DateTime.of(OffsetDateTime)`: it adapts java.time getters through `TimezoneOffset.of`, and TimezoneOffset.java is not part of this model. `ToOffsetDatetimeThenOf` states the matching round trip on components.
- `TimezoneOffset.asJavaTimeOffset`: the offset is opaque and passes into the `OffsetDateTime` unchanged. java.time's ±18 hour offset range is not checked.
- Field.java is not part of this model. Its order is the one implied by the ordinal comparisons in DateTime.java.
- Exception message text, exception classes, and `LeapSecondException`'s `RuntimeException` superclass and stack trace: errors are modelled as kinds that carry the values their messages report.
- Null references: the model's `Field`, `DateTime` components and `OffsetDateTime` are never null. In Java, `new DateTime(null, …)` builds a value whose `includesGranularity` and conversions then throw a NullPointerException, and `LeapSecondException` accepts a null `nearestDateTime`; neither is modelled.
- java.time rejections are one error kind, `InvalidValue`. Which java.time field check fired is not distinguished.
- The leap-second correction and the leap-boundary flag: the code that computes them is not part of this model.
- `getNano()` widens to `long`, which the model's unbounded integers make invisible. The components are Java `int`s (`JavaTime.Int32`). No arithmetic is done on them, so there is no overflow to model.
