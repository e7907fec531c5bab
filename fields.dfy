/**
 * The granularity of a parsed date-time: the last field the parser found.
 * Field.java is not part of this model; its declaration order is the one
 * implied by the ordinal comparisons in DateTime.java.
 */
module Fields {

  datatype Field = Year | Month | Day | Hour | Minute | Second | Nano {

    /** The enum ordinal: the position of the constant in declaration order. */
    function Ord(): (r: nat)
      ensures r < |AllFields| && AllFields[r] == this
    {
      match this
      case Year => 0
      case Month => 1
      case Day => 2
      case Hour => 3
      case Minute => 4
      case Second => 5
      case Nano => 6
    }

    /** `this` is the same field as `that` or a coarser one. */
    predicate AtMost(that: Field) {
      Ord() <= that.Ord()
    }
  }

  /** Every field, in declaration order (coarsest first). */
  const AllFields: seq<Field> := [Year, Month, Day, Hour, Minute, Second, Nano]

  /** Two fields with the same ordinal are the same field. */
  lemma OrdInjective(f: Field, g: Field)
    ensures f.Ord() == g.Ord() <==> f == g
  {
  }

  /**
   * The fields no finer than `f` are exactly the declaration-order prefix
   * that ends with `f`.
   */
  lemma AtMostIsPrefix(f: Field, g: Field)
    ensures g.AtMost(f) <==> g in AllFields[..f.Ord() + 1]
  {
  }
}
