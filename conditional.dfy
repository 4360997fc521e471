/** The generic ternary of package `fn` (slice/conditional.go). */
module Conditional {

  /**
   `a` when `flag` holds, `b` otherwise: the result is always one of the two
   branches, and when they differ it is the first exactly when the flag holds.
   */
  function If<T>(flag: bool, a: T, b: T): (r: T)
    ensures r == a || r == b
    ensures a != b ==> (r == a <==> flag)
  {
    if flag then a else b
  }

  /** A true flag selects the first branch. */
  lemma IfTrue<T>(a: T, b: T)
    ensures If(true, a, b) == a
  {
  }

  /** A false flag selects the second branch. */
  lemma IfFalse<T>(a: T, b: T)
    ensures If(false, a, b) == b
  {
  }

  /** With equal branches the flag does not matter. */
  lemma IfSameBranches<T>(flag: bool, a: T)
    ensures If(flag, a, a) == a
  {
  }

  /** Negating the flag and swapping the branches gives the same value. */
  lemma IfNegated<T>(flag: bool, a: T, b: T)
    ensures If(!flag, b, a) == If(flag, a, b)
  {
  }
}
