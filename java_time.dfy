/**
 * The java.time values that DateTime converts into, and the validation their
 * static factories perform before building them (ISO-8601 proleptic Gregorian
 * calendar). Each factory either returns the record holding exactly its
 * arguments or throws a DateTimeException, modelled as `InvalidValue`.
 */
module JavaTime {
  import opened Results
  import opened Errors

  /** A Java `int`. */
  type Int32 = x: int | -0x8000_0000 <= x < 0x8000_0000

  /** The zone offset a DateTime carries; opaque to every modelled operation. */
  datatype TimezoneOffset = TimezoneOffset(totalSeconds: int)

  datatype YearMonth = YearMonth(year: int, month: int)
  datatype LocalDate = LocalDate(year: int, month: int, day: int)
  datatype LocalTime = LocalTime(hour: int, minute: int, second: int, nano: int)
  datatype LocalDateTime = LocalDateTime(date: LocalDate, time: LocalTime)
  datatype OffsetDateTime = OffsetDateTime(dateTime: LocalDateTime, offset: TimezoneOffset)

  /** The year range java.time accepts. */
  const MinYear: int := -999_999_999
  const MaxYear: int := 999_999_999

  /**
   * The Gregorian leap-year rule. Java tests `(y & 3) == 0`, which for a
   * two's-complement int agrees with the Euclidean `y % 4 == 0`; the tests
   * against 100 and 400 only compare with zero, where truncating and
   * Euclidean remainders agree.
   */
  predicate IsLeapYear(y: int) {
    y % 4 == 0 && (y % 100 != 0 || y % 400 == 0)
  }

  /** The number of days in month `m` (1-12) of year `y`. */
  function LengthOfMonth(y: int, m: int): (r: int)
    requires 1 <= m <= 12
    ensures 28 <= r <= 31
    ensures r == 29 <==> m == 2 && IsLeapYear(y)
    ensures r == 31 <==> m in {1, 3, 5, 7, 8, 10, 12}
  {
    if m == 2 then (if IsLeapYear(y) then 29 else 28)
    else if m == 4 || m == 6 || m == 9 || m == 11 then 30
    else 31
  }

  predicate ValidYearMonth(y: int, m: int) {
    MinYear <= y <= MaxYear && 1 <= m <= 12
  }

  predicate ValidDate(y: int, m: int, d: int) {
    ValidYearMonth(y, m) && 1 <= d <= LengthOfMonth(y, m)
  }

  /** java.time has no leap second: second-of-minute is 0-59. */
  predicate ValidTime(h: int, mi: int, s: int, n: int) {
    0 <= h <= 23 && 0 <= mi <= 59 && 0 <= s <= 59 && 0 <= n <= 999_999_999
  }

  /** `YearMonth.of(year, month)`. */
  function YearMonthOf(y: int, m: int): (r: Result<YearMonth, Error>)
    ensures r.Ok? <==> MinYear <= y <= MaxYear && 1 <= m <= 12
    ensures r.Ok? ==> r.value.year == y && r.value.month == m
    ensures r.Err? ==> r.error == InvalidValue
  {
    if ValidYearMonth(y, m) then Ok(YearMonth(y, m)) else Err(InvalidValue)
  }

  /** `LocalDate.of(year, month, dayOfMonth)`. */
  function LocalDateOf(y: int, m: int, d: int): (r: Result<LocalDate, Error>)
    ensures r.Ok? <==> YearMonthOf(y, m).Ok? && 1 <= d <= LengthOfMonth(y, m)
    ensures r.Ok? ==> r.value.year == y && r.value.month == m && r.value.day == d
    ensures r.Err? ==> r.error == InvalidValue
  {
    if ValidDate(y, m, d) then Ok(LocalDate(y, m, d)) else Err(InvalidValue)
  }

  /** `LocalDateTime.of(year, month, dayOfMonth, hour, minute, second, nanoOfSecond)`. */
  function LocalDateTimeOf(y: int, m: int, d: int, h: int, mi: int, s: int, n: int): (r: Result<LocalDateTime, Error>)
    ensures r.Ok? <==> LocalDateOf(y, m, d).Ok? && 0 <= h <= 23 && 0 <= mi <= 59 && 0 <= s <= 59 && 0 <= n <= 999_999_999
    ensures r.Ok? ==> r.value.date == LocalDateOf(y, m, d).value && r.value.time == LocalTime(h, mi, s, n)
    ensures r.Err? ==> r.error == InvalidValue
  {
    var date :- LocalDateOf(y, m, d);
    if ValidTime(h, mi, s, n) then Ok(LocalDateTime(date, LocalTime(h, mi, s, n))) else Err(InvalidValue)
  }

  /** `OffsetDateTime.of(year, month, dayOfMonth, hour, minute, second, nanoOfSecond, offset)`. */
  function OffsetDateTimeOf(y: int, m: int, d: int, h: int, mi: int, s: int, n: int, offset: TimezoneOffset): (r: Result<OffsetDateTime, Error>)
    ensures r.Ok? <==> LocalDateTimeOf(y, m, d, h, mi, s, n).Ok?
    ensures r.Ok? ==> r.value.dateTime == LocalDateTimeOf(y, m, d, h, mi, s, n).value && r.value.offset == offset
    ensures r.Err? ==> r.error == InvalidValue
  {
    var dateTime :- LocalDateTimeOf(y, m, d, h, mi, s, n);
    Ok(OffsetDateTime(dateTime, offset))
  }

  /** Day 29 of February exists exactly in leap years. */
  lemma February29(y: int)
    requires MinYear <= y <= MaxYear
    ensures LocalDateOf(y, 2, 29).Ok? <==> IsLeapYear(y)
  {
  }
}
