/**
 * The immutable holder of a parsed date-time (DateTime.java). It records the
 * granularity (the last field the parser found) beside seven int components
 * and an optional offset. The factories store 0 for the components finer
 * than the granularity; the public constructor does not enforce that. Conversions to java.time types are allowed only from a sufficiently
 * fine granularity.
 */
module DateTimes {
  import opened Results
  import opened Fields
  import opened Errors
  import opened JavaTime

  /** Upper bounds checked by the constructor; year and offset are never checked. */
  const MaxMonth: int := 12
  const MaxDay: int := 31
  const MaxHour: int := 23
  const MaxMinute: int := 59
  const MaxSecond: int := 60
  const MaxNano: int := 999_999_999

  /**
   * A DateTime as the constructor leaves it. Build values with `Make` or a
   * factory; the bare datatype constructor skips the bound checks.
   */
  datatype DateTime = DateTime(
    field: Field,
    year: Int32,
    month: Int32,
    day: Int32,
    hour: Int32,
    minute: Int32,
    second: Int32,
    nano: Int32,
    offset: Option<TimezoneOffset>)
  {
    /** What every constructed value satisfies: the upper bounds only. */
    predicate Valid() {
      month <= MaxMonth && day <= MaxDay && hour <= MaxHour
      && minute <= MaxMinute && second <= MaxSecond && nano <= MaxNano
    }

    /**
     * `includesGranularity(f)`: `f` is this value's granularity or a coarser
     * field, i.e. it is declared no later than the granularity.
     */
    predicate IncludesGranularity(f: Field): (b: bool)
      ensures b <==> f in AllFields[..field.Ord() + 1]
    {
      AtMostIsPrefix(field, f);
      f.AtMost(field)
    }

    /** `toYearMonth()`. */
    function ToYearMonth(): (r: Result<YearMonth, Error>)
      ensures field.Ord() < Month.Ord() ==> r == Err(MissingField(field))
      ensures field.Ord() >= Month.Ord() ==> (r.Ok? <==> ValidYearMonth(year, month))
      ensures r.Ok? ==> r.value == YearMonth(year, month)
      ensures r.Err? ==> r.error in {MissingField(field), InvalidValue}
      ensures field.Ord() >= Month.Ord() && r.Err? ==> r.error == InvalidValue
    {
      if field.Ord() >= Month.Ord() then YearMonthOf(year, month)
      else Err(MissingField(field))
    }

    /** `toLocalDatetime()`. */
    function ToLocalDatetime(): (r: Result<LocalDateTime, Error>)
      ensures field.Ord() < Minute.Ord() ==> r == Err(MissingField(field))
      ensures field.Ord() >= Minute.Ord() ==>
        (r.Ok? <==> ValidDate(year, month, day) && ValidTime(hour, minute, second, nano))
      ensures r.Ok? ==>
        r.value == LocalDateTime(LocalDate(year, month, day), LocalTime(hour, minute, second, nano))
      ensures r.Err? ==> r.error in {MissingField(field), InvalidValue}
      ensures field.Ord() >= Minute.Ord() && r.Err? ==> r.error == InvalidValue
    {
      if field.Ord() >= Minute.Ord() then LocalDateTimeOf(year, month, day, hour, minute, second, nano)
      else Err(MissingField(field))
    }

    /**
     * `toOffsetDatetime()`. A missing offset is reported before a too coarse
     * granularity: `MissingField` is thrown only when an offset is present.
     */
    function ToOffsetDatetime(): (r: Result<OffsetDateTime, Error>)
      ensures offset.None? ==> r == Err(NoZoneOffset)
      ensures offset.Some? && field.Ord() < Minute.Ord() ==> r == Err(MissingField(field))
      ensures offset.Some? && field.Ord() >= Minute.Ord() ==>
        (r.Ok? <==> ValidDate(year, month, day) && ValidTime(hour, minute, second, nano))
      ensures r.Ok? ==> r.value == OffsetDateTime(
        LocalDateTime(LocalDate(year, month, day), LocalTime(hour, minute, second, nano)), offset.value)
      ensures r.Err? ==> r.error in {NoZoneOffset, MissingField(field), InvalidValue}
      ensures r == Err(NoZoneOffset) ==> offset.None?
      ensures offset.Some? && field.Ord() >= Minute.Ord() && r.Err? ==> r.error == InvalidValue
    {
      if field.Ord() >= Minute.Ord() && offset.Some? then
        OffsetDateTimeOf(year, month, day, hour, minute, second, nano, offset.value)
      else if offset.None? then
        Err(NoZoneOffset)
      else
        Err(MissingField(field))
    }

    /** `toLocalDate()`. */
    function ToLocalDate(): (r: Result<LocalDate, Error>)
      ensures field.Ord() < Day.Ord() ==> r == Err(MissingField(field))
      ensures field.Ord() >= Day.Ord() ==> (r.Ok? <==> ValidDate(year, month, day))
      ensures r.Ok? ==> r.value == LocalDate(year, month, day)
      ensures r.Err? ==> r.error in {MissingField(field), InvalidValue}
      ensures field.Ord() >= Day.Ord() && r.Err? ==> r.error == InvalidValue
    {
      if field.Ord() >= Day.Ord() then LocalDateOf(year, month, day)
      else Err(MissingField(field))
    }

    /** `assertMinGranularity(f)`: a guard that hands back this very value. */
    function AssertMinGranularity(f: Field): (r: Result<DateTime, Error>)
      ensures r.Ok? <==> f.Ord() <= field.Ord()
      ensures r.Ok? ==> r.value == this
      ensures r.Err? ==> r.error == FieldNotFound(f)
    {
      if !IncludesGranularity(f) then Err(FieldNotFound(f)) else Ok(this)
    }
  }

  /**
   * `assertSize(value, min, max, field)`: only the upper bound is checked;
   * `min` appears only in the message.
   */
  function AssertSize(value: Int32, min: int, max: int, field: Field): (r: Result<Int32, Error>)
    ensures r.Ok? <==> value <= max
    ensures r.Ok? ==> r.value == value
    ensures r.Err? ==> r.error == OutOfBounds(field, min, max, value)
  {
    if value > max then Err(OutOfBounds(field, min, max, value)) else Ok(value)
  }

  /**
   * The public constructor `new DateTime(...)`. The components are checked in
   * the order month, day, hour, minute, second, nano and the first one above
   * its bound is the one reported.
   */
  function Make(field: Field, year: Int32, month: Int32, day: Int32, hour: Int32, minute: Int32,
                second: Int32, nano: Int32, offset: Option<TimezoneOffset>): (r: Result<DateTime, Error>)
    ensures r.Ok? <==> month <= 12 && day <= 31 && hour <= 23 && minute <= 59 && second <= 60 && nano <= 999_999_999
    ensures r.Ok? ==> r.value.Valid()
    ensures r.Ok? ==> r.value == DateTime(field, year, month, day, hour, minute, second, nano, offset)
    ensures month > 12 ==> r == Err(OutOfBounds(Month, 1, 12, month))
    ensures month <= 12 && day > 31 ==> r == Err(OutOfBounds(Day, 1, 31, day))
    ensures month <= 12 && day <= 31 && hour > 23 ==> r == Err(OutOfBounds(Hour, 0, 23, hour))
    ensures month <= 12 && day <= 31 && hour <= 23 && minute > 59 ==> r == Err(OutOfBounds(Minute, 0, 59, minute))
    ensures month <= 12 && day <= 31 && hour <= 23 && minute <= 59 && second > 60 ==>
      r == Err(OutOfBounds(Second, 0, 60, second))
    ensures month <= 12 && day <= 31 && hour <= 23 && minute <= 59 && second <= 60 && nano > 999_999_999 ==>
      r == Err(OutOfBounds(Nano, 0, 999_999_999, nano))
  {
    var m :- AssertSize(month, 1, MaxMonth, Month);
    var d :- AssertSize(day, 1, MaxDay, Day);
    var h :- AssertSize(hour, 0, MaxHour, Hour);
    var mi :- AssertSize(minute, 0, MaxMinute, Minute);
    var s :- AssertSize(second, 0, MaxSecond, Second);
    var n :- AssertSize(nano, 0, MaxNano, Nano);
    Ok(DateTime(field, year, m, d, h, mi, s, n, offset))
  }

  /** The eight-argument `of`: granularity SECOND, offset may be absent. */
  function Of(year: Int32, month: Int32, day: Int32, hour: Int32, minute: Int32,
              second: Int32, nanos: Int32, offset: Option<TimezoneOffset>): (r: Result<DateTime, Error>)
    ensures r.Ok? <==> month <= 12 && day <= 31 && hour <= 23 && minute <= 59 && second <= 60 && nanos <= 999_999_999
    ensures r.Ok? ==> r.value == DateTime(Second, year, month, day, hour, minute, second, nanos, offset)
    ensures r.Err? ==> r.error.OutOfBounds? && r.error.value > r.error.max
  {
    Make(Second, year, month, day, hour, minute, second, nanos, offset)
  }

  /** `ofYear(year)`: always succeeds, although month and day are stored as 0. */
  function OfYear(year: Int32): (r: Result<DateTime, Error>)
    ensures r == Ok(DateTime(Year, year, 0, 0, 0, 0, 0, 0, None))
  {
    Make(Year, year, 0, 0, 0, 0, 0, 0, None)
  }

  /** `ofYearMonth(years, months)`. */
  function OfYearMonth(years: Int32, months: Int32): (r: Result<DateTime, Error>)
    ensures r.Ok? <==> months <= 12
    ensures r.Ok? ==> r.value == DateTime(Month, years, months, 0, 0, 0, 0, 0, None)
    ensures r.Err? ==> r.error == OutOfBounds(Month, 1, 12, months)
  {
    Make(Month, years, months, 0, 0, 0, 0, 0, None)
  }

  /** `ofDate(years, months, days)`: no check of the day against the month's length. */
  function OfDate(years: Int32, months: Int32, days: Int32): (r: Result<DateTime, Error>)
    ensures r.Ok? <==> months <= 12 && days <= 31
    ensures r.Ok? ==> r.value == DateTime(Day, years, months, days, 0, 0, 0, 0, None)
    ensures months > 12 ==> r == Err(OutOfBounds(Month, 1, 12, months))
    ensures months <= 12 && days > 31 ==> r == Err(OutOfBounds(Day, 1, 31, days))
  {
    Make(Day, years, months, days, 0, 0, 0, 0, None)
  }

  /** The six-argument `of`: granularity MINUTE, second and nano stored as 0, offset may be absent. */
  function OfMinute(years: Int32, months: Int32, days: Int32, hours: Int32, minute: Int32,
                    offset: Option<TimezoneOffset>): (r: Result<DateTime, Error>)
    ensures r.Ok? <==> months <= 12 && days <= 31 && hours <= 23 && minute <= 59
    ensures r.Ok? ==> r.value == DateTime(Minute, years, months, days, hours, minute, 0, 0, offset)
    ensures r.Err? ==> r.error.OutOfBounds? && r.error.field in {Month, Day, Hour, Minute}
  {
    Make(Minute, years, months, days, hours, minute, 0, 0, offset)
  }
}
