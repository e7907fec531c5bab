/**
 * Properties that relate several DateTime operations: the granularity order,
 * the conversion thresholds, the factories and the deferred calendar check.
 */
module DateTimeProperties {
  import opened Results
  import opened Fields
  import opened Errors
  import opened JavaTime
  import opened DateTimes

  /**
   * A helper for `IncludedFieldsArePrefix`: the fields of `fs` that `dt`
   * includes, in their order in `fs`.
   */
  function IncludedAmong(dt: DateTime, fs: seq<Field>): (r: seq<Field>)
    ensures |r| <= |fs|
    ensures forall f :: f in r <==> f in fs && dt.IncludesGranularity(f)
  {
    if fs == [] then []
    else if dt.IncludesGranularity(fs[0]) then [fs[0]] + IncludedAmong(dt, fs[1..])
    else IncludedAmong(dt, fs[1..])
  }

  /** Filtering a list whose first `k` fields are included and the rest are not keeps the first `k`. */
  lemma {:induction false} IncludedAmongSplit(dt: DateTime, fs: seq<Field>, k: nat)
    requires k <= |fs|
    requires forall i :: 0 <= i < k ==> dt.IncludesGranularity(fs[i])
    requires forall i :: k <= i < |fs| ==> !dt.IncludesGranularity(fs[i])
    ensures IncludedAmong(dt, fs) == fs[..k]
  {
    if fs != [] {
      IncludedAmongSplit(dt, fs[1..], if k == 0 then 0 else k - 1);
      if k > 0 {
        assert fs[..k] == [fs[0]] + fs[1..][..k - 1];
      }
    }
  }

  /**
   * The fields a value includes are exactly the declaration-order prefix of
   * Field that ends with its granularity: the granularity is the last field
   * found, and every coarser field counts as found too.
   */
  lemma IncludedFieldsArePrefix(dt: DateTime)
    ensures IncludedAmong(dt, AllFields) == AllFields[..dt.field.Ord() + 1]
    ensures IncludedAmong(dt, AllFields)[dt.field.Ord()] == dt.field
  {
    forall i | 0 <= i < |AllFields|
      ensures AllFields[i].Ord() == i
    {
      assert AllFields == [Year, Month, Day, Hour, Minute, Second, Nano];
    }
    IncludedAmongSplit(dt, AllFields, dt.field.Ord() + 1);
  }

  /** `includesGranularity` is monotone: a value that includes `f` includes every coarser field. */
  lemma IncludesMonotone(dt: DateTime, f: Field, g: Field)
    requires dt.IncludesGranularity(f) && g.AtMost(f)
    ensures dt.IncludesGranularity(g)
  {
  }

  /** Every value includes YEAR and its own granularity. */
  lemma IncludesYearAndOwnField(dt: DateTime)
    ensures dt.IncludesGranularity(Year) && dt.IncludesGranularity(dt.field)
  {
  }

  /** Construction accepts every component equal to its bound. */
  lemma MaximaAccepted(field: Field, year: Int32, offset: Option<TimezoneOffset>)
    ensures Make(field, year, 12, 31, 23, 59, 60, 999_999_999, offset).Ok?
  {
  }

  /** Construction never checks a lower bound, the year or the offset. */
  lemma LowerBoundsNotChecked(field: Field, year: Int32, month: Int32, day: Int32, hour: Int32, minute: Int32,
                              second: Int32, nano: Int32, offset: Option<TimezoneOffset>)
    requires month <= 0 && day <= 0 && hour <= 0 && minute <= 0 && second <= 0 && nano <= 0
    ensures Make(field, year, month, day, hour, minute, second, nano, offset)
      == Ok(DateTime(field, year, month, day, hour, minute, second, nano, offset))
  {
  }

  /** The accessors return the constructor's arguments whatever the granularity. */
  lemma AccessorsReturnStored(field: Field, year: Int32, month: Int32, day: Int32, hour: Int32, minute: Int32,
                              second: Int32, nano: Int32, offset: Option<TimezoneOffset>)
    requires Make(field, year, month, day, hour, minute, second, nano, offset).Ok?
    ensures var dt := Make(field, year, month, day, hour, minute, second, nano, offset).value;
      && dt.field == field && dt.year == year && dt.month == month && dt.day == day
      && dt.hour == hour && dt.minute == minute && dt.second == second && dt.nano == nano
      && dt.offset == offset
  {
  }

  /**
   * Each conversion fails for lack of a field exactly when the value does not
   * include that conversion's minimum field, which is also exactly when the
   * matching `assertMinGranularity` fails.
   */
  lemma ThresholdsMatchGuard(dt: DateTime)
    ensures dt.ToYearMonth() == Err(MissingField(dt.field)) <==> dt.AssertMinGranularity(Month).Err?
    ensures dt.ToLocalDate() == Err(MissingField(dt.field)) <==> dt.AssertMinGranularity(Day).Err?
    ensures dt.ToLocalDatetime() == Err(MissingField(dt.field)) <==> dt.AssertMinGranularity(Minute).Err?
    ensures dt.offset.Some? ==>
      (dt.ToOffsetDatetime() == Err(MissingField(dt.field)) <==> dt.AssertMinGranularity(Minute).Err?)
  {
  }

  /** A successful conversion implies every coarser one succeeds on the same components. */
  lemma ConversionsNest(dt: DateTime)
    ensures dt.ToOffsetDatetime().Ok? ==> dt.ToLocalDatetime() == Ok(dt.ToOffsetDatetime().value.dateTime)
    ensures dt.ToLocalDatetime().Ok? ==> dt.ToLocalDate() == Ok(dt.ToLocalDatetime().value.date)
    ensures dt.ToLocalDate().Ok? ==> dt.ToYearMonth() == Ok(YearMonth(dt.year, dt.month))
  {
  }

  /** An offset date-time exists exactly when a local one does and an offset was parsed. */
  lemma OffsetDatetimeNeedsOffset(dt: DateTime)
    ensures dt.ToOffsetDatetime().Ok? <==> dt.ToLocalDatetime().Ok? && dt.offset.Some?
    ensures dt.offset.None? ==> dt.ToOffsetDatetime() == Err(NoZoneOffset)
  {
  }

  /**
   * The eight-argument factory followed by `toOffsetDatetime` hands back
   * every component and the offset unchanged, the nano included.
   */
  lemma OfThenToOffsetDatetime(y: Int32, m: Int32, d: Int32, h: Int32, mi: Int32, s: Int32, n: Int32, o: TimezoneOffset)
    requires ValidDate(y, m, d) && ValidTime(h, mi, s, n)
    ensures Of(y, m, d, h, mi, s, n, Some(o)).Ok?
    ensures Of(y, m, d, h, mi, s, n, Some(o)).value.ToOffsetDatetime()
      == Ok(OffsetDateTime(LocalDateTime(LocalDate(y, m, d), LocalTime(h, mi, s, n)), o))
  {
  }

  /** And back: the components of a SECOND value's offset date-time rebuild that value. */
  lemma ToOffsetDatetimeThenOf(dt: DateTime)
    requires dt.field == Second && dt.ToOffsetDatetime().Ok?
    ensures var odt := dt.ToOffsetDatetime().value;
      Of(odt.dateTime.date.year as Int32, odt.dateTime.date.month as Int32, odt.dateTime.date.day as Int32,
         odt.dateTime.time.hour as Int32, odt.dateTime.time.minute as Int32, odt.dateTime.time.second as Int32,
         odt.dateTime.time.nano as Int32, Some(odt.offset)) == Ok(dt)
  {
  }

  /** At MINUTE granularity the local date-time has second and nano 0. */
  lemma MinuteHasZeroSeconds(years: Int32, months: Int32, days: Int32, hours: Int32, minute: Int32,
                             offset: Option<TimezoneOffset>)
    requires OfMinute(years, months, days, hours, minute, offset).Ok?
    ensures var dt := OfMinute(years, months, days, hours, minute, offset).value;
      dt.ToLocalDatetime().Ok? ==> dt.ToLocalDatetime().value.time.second == 0 && dt.ToLocalDatetime().value.time.nano == 0
    ensures offset.None? ==> OfMinute(years, months, days, hours, minute, offset).value.ToOffsetDatetime() == Err(NoZoneOffset)
  {
  }

  /**
   * A second of 60 passes construction but no conversion that carries the
   * time of day: java.time has no leap second.
   */
  lemma LeapSecondNotConvertible(dt: DateTime)
    requires dt.second == 60
    ensures dt.ToLocalDatetime().Err? && dt.ToOffsetDatetime().Err?
  {
  }

  /** The values of the coarse factories convert only at or below their own granularity. */
  lemma FactoryGranularities(year: Int32, month: Int32, day: Int32)
    ensures OfYear(year).value.ToYearMonth() == Err(MissingField(Year))
    ensures OfYearMonth(year, month).Ok? ==> OfYearMonth(year, month).value.ToLocalDate() == Err(MissingField(Month))
    ensures OfDate(year, month, day).Ok? ==> OfDate(year, month, day).value.ToLocalDatetime() == Err(MissingField(Day))
  {
  }

  /**
   * The constructor bounds the day by 31 only; the month's real length is
   * checked when converting. A day outside the month is built by `ofDate`,
   * and rejected by toLocalDate.
   */
  lemma CalendarCheckDeferred(y: Int32, m: Int32, d: Int32)
    requires 1 <= m <= 12 && d <= 31 && !(1 <= d <= LengthOfMonth(y, m))
    ensures OfDate(y, m, d).Ok?
    ensures OfDate(y, m, d).value.ToLocalDate() == Err(InvalidValue)
  {
  }

  /** Likewise a month below 1 (or a year outside java.time's range) is built by `ofYearMonth` and rejected by toYearMonth. */
  lemma YearMonthCheckDeferred(y: Int32, m: Int32)
    requires m <= 12 && !ValidYearMonth(y, m)
    ensures OfYearMonth(y, m).Ok?
    ensures OfYearMonth(y, m).value.ToYearMonth() == Err(InvalidValue)
  {
  }

  /** February 30 of 2023 is built, and rejected by toLocalDate. */
  lemma February30Deferred()
    ensures OfDate(2023, 2, 30).Ok?
    ensures OfDate(2023, 2, 30).value.ToLocalDate() == Err(InvalidValue)
  {
    CalendarCheckDeferred(2023, 2, 30);
  }
}
