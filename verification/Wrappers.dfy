/** The optional value used throughout the model. */
module Wrappers {
  datatype Option<+T> = None | Some(value: T)

  /** The sequence without repetitions. */
  ghost predicate NoDup<T(!new)>(s: seq<T>) {
    forall i, j :: 0 <= i < j < |s| ==> s[i] != s[j]
  }

  /** The smaller of two numbers. */
  function Min(a: int, b: int): int {
    if a <= b then a else b
  }

  /** Subtraction that stops at zero, as `usize::saturating_sub` does. */
  function SatSub(a: nat, b: nat): nat {
    if a <= b then 0 else a - b
  }
}
