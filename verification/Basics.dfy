/** Small shared vocabulary. */
module Basics {
  datatype Option<T> = None | Some(value: T)

  /** The numbers from `lo` up to, not including, `hi`. */
  function Interval(lo: nat, hi: nat): (s: set<nat>)
    ensures forall a: nat :: a in s <==> lo <= a < hi
  {
    if lo >= hi then {} else Interval(lo, hi - 1) + {hi - 1}
  }

  function TwoToThe(n: nat): (p: nat)
    ensures p > 0
  {
    if n == 0 then 1 else 2 * TwoToThe(n - 1)
  }

  // ----- lists without repetition

  ghost predicate NoRepeat(s: seq<nat>) {
    forall i, j :: 0 <= i < j < |s| ==> s[i] != s[j]
  }

  /** The list without its element at `k`. */
  function Without<T>(s: seq<T>, k: nat): seq<T>
    requires k < |s|
  {
    s[..k] + s[k + 1..]
  }
}
