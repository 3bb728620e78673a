/** Small value types shared by the models. */
module Basics {

  /** A value that may be missing; the counterpart of Python's `None`. */
  datatype Option<+T> = None | Some(value: T)

  function Max(x: int, y: int): int {
    if x < y then y else x
  }

  /** A subset is not larger. */
  lemma SubsetSize(a: set<int>, b: set<int>)
    requires a <= b
    ensures |a| <= |b|
  {
    assert b == a + (b - a);
  }
}
