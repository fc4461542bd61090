/** What several parts of the model need. */
module Basics {

  datatype Option<+T> = None | Some(value: T)

  function Min(a: nat, b: nat): nat { if a < b then a else b }

  /** The later of two times. */
  function Later(a: int, b: int): int { if a < b then b else a }

  /** A subset is no larger, and as large only if it is the whole set. */
  lemma CardinalityIsMonotone<T>(a: set<T>, b: set<T>)
    requires a <= b
    ensures |a| <= |b|
    ensures |a| == |b| ==> a == b
    ensures |b - a| == |b| - |a|
  {
    assert b == a + (b - a);
  }

  function Power10(n: nat): nat { if n == 0 then 1 else 10 * Power10(n - 1) }
}
