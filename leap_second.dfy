/**
 * LeapSecondException.java: what the parser throws when it meets a
 * second-of-minute of 60. It only carries three values handed to it; the
 * parser that computes them is not part of this model.
 */
module LeapSeconds {
  import opened JavaTime

  /** The three final fields; the constructor stores its arguments unchecked. */
  datatype LeapSecondException = LeapSecondException(
    nearestDateTime: OffsetDateTime,
    secondsInMinute: Int32,
    isVerifiedValidLeapYearMonth: bool)

  /** Every argument triple is accepted, and each accessor returns its own argument. */
  lemma AccessorsReturnStored(nearest: OffsetDateTime, seconds: Int32, verified: bool)
    ensures var e := LeapSecondException(nearest, seconds, verified);
      && e.nearestDateTime == nearest
      && e.secondsInMinute == seconds
      && e.isVerifiedValidLeapYearMonth == verified
  {
  }
}
