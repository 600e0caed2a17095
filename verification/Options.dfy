/** Values that may be missing, and sequences without one of their elements. */
module Options {
  datatype Option<+T> = None | Some(value: T)

  /** The sequence without the element at `i`. */
  function WithoutAt<T>(items: seq<T>, i: nat): (rest: seq<T>)
    requires i < |items|
    ensures |rest| == |items| - 1
    ensures forall k | 0 <= k < |rest| :: rest[k] == items[if k < i then k else k + 1]
  {
    items[..i] + items[i + 1..]
  }
}
