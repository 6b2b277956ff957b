/** Numeric conversions the Python sources perform implicitly. */
module Numeric {

  /** Python's `int(x)` on a float: truncation toward zero. */
  function Truncate(x: real): (r: int)
    ensures x >= 0.0 ==> r as real <= x < r as real + 1.0
    ensures x < 0.0 ==> r as real - 1.0 < x <= r as real
  {
    if x >= 0.0 then x.Floor else -((-x).Floor)
  }

  /** For a positive integer bound `n`, the truncation of `x` is an index of a
      range of length `n` exactly when `x` lies strictly between -1 and `n`:
      values just below zero truncate to 0 and are accepted. */
  lemma TruncateInRange(x: real, n: int)
    requires n > 0
    ensures 0 <= Truncate(x) < n <==> -1.0 < x < n as real
  {
    var t := Truncate(x);
    if x >= 0.0 {
      assert t as real <= x < t as real + 1.0;
    } else {
      assert t as real - 1.0 < x <= t as real;
    }
  }
}
