/** Which part of an array a step has left alone. */
module Frames {
  /** Everything from position n on is as it was. */
  twostate predicate BeyondUnchanged<T>(a: array<T>, n: nat)
    reads a
  {
    forall k | n <= k < a.Length :: a[k] == old(a[k])
  }

  /** Everything before position n is as it was. */
  twostate predicate BeforeUnchanged<T>(a: array<T>, n: nat)
    reads a
  {
    forall k | 0 <= k < n && k < a.Length :: a[k] == old(a[k])
  }
}
