/** Types, small functions and facts about sets that several modules share. */
module Prelude {
  datatype Option<+T> = None | Some(value: T)

  /** A kernel call may succeed, be refused, or stop the kernel. */
  datatype Outcome<+T> = Done(value: T) | Refused | Panicked

  function Max(x: int, y: int): (r: int) {
    if x < y then y else x
  }

  function Min(x: int, y: int): (r: int) {
    if x < y then x else y
  }

  lemma SubsetSize<T>(a: set<T>, b: set<T>)
    requires a <= b
    ensures |a| <= |b|
  {
    assert b == a + (b - a);
  }

  lemma UnionSize<T>(a: set<T>, b: set<T>)
    ensures |a + b| <= |a| + |b|
  {
    assert a + b == a + (b - a);
    SubsetSize(b - a, b);
  }
}
