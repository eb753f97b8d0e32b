/**
 * The number rules the request schemas share: zod's `.int()` and
 * `.positive()` over JavaScript numbers, which are modelled as reals.
 */
module Schema {
  /** `.int()`: the number has no fractional part. */
  predicate IsInteger(x: real) {
    x.Floor as real == x
  }

  /** `.int().positive()`: a whole number above zero. */
  predicate IsPositiveInteger(x: real) {
    IsInteger(x) && x > 0.0
  }

  /** A positive integer read as an `int` is at least 1 and reads back as
      the same number. */
  lemma PositiveIntegerAsInt(x: real)
    requires IsPositiveInteger(x)
    ensures x.Floor >= 1 && x.Floor as real == x
  {
  }
}
