/** What every module shares: optional values, 32-bit words as numbers, sequences without repetition. */
module Wrappers {
  datatype Option<+T> = None | Some(value: T)

  type U32 = x: int | 0 <= x < 0x1_0000_0000

  predicate Distinct<T(==)>(s: seq<T>)
  {
    forall i, j | 0 <= i < j < |s| :: s[i] != s[j]
  }
}
