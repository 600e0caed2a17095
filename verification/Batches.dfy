/** Slicing a list into consecutive batches, and listing a set. */
module Batches {

  function Flatten<T>(batches: seq<seq<T>>): seq<T> {
    if batches == [] then [] else Flatten(batches[..|batches| - 1]) + batches[|batches| - 1]
  }

  /** Cuts a list into slices that are full, except perhaps the last. */
  method Chunks<T>(items: seq<T>, size: nat) returns (out: seq<seq<T>>)
    requires size > 0
    ensures Flatten(out) == items
    ensures forall i | 0 <= i < |out| :: 0 < |out[i]| <= size && (i < |out| - 1 ==> |out[i]| == size)
  {
    out := [];
    var index := 0;
    while index < |items|
      invariant 0 <= index
      invariant Flatten(out) == items[..if index < |items| then index else |items|]
      invariant forall i | 0 <= i < |out| ::
                  0 < |out[i]| <= size && (index < |items| || i < |out| - 1 ==> |out[i]| == size)
    {
      var end := if index + size < |items| then index + size else |items|;
      var slice := items[index..end];
      assert (out + [slice])[..|out|] == out;
      assert items[..end] == items[..index] + slice;
      out := out + [slice];
      index := index + size;
    }
    assert items[..|items|] == items;
  }

  /** The batches up to and including the next one. */
  lemma FlattenNext<T>(batches: seq<seq<T>>, i: nat)
    requires i < |batches|
    ensures Flatten(batches[..i + 1]) == Flatten(batches[..i]) + batches[i]
  {
    assert batches[..i + 1][..i] == batches[..i];
  }

  /** The next slice of a set of at most `size` elements, full unless fewer are left. */
  method NextSlice<T(==)>(left: set<T>, size: nat) returns (slice: set<T>)
    requires size > 0
    ensures slice <= left && |slice| <= size
    ensures |slice| == size || slice == left
    ensures left != {} ==> slice != {}
  {
    slice := {};
    while |slice| < size && slice != left
      invariant slice <= left && |slice| <= size
      decreases left - slice
    {
      assert left == slice + (left - slice);
      var x :| x in left - slice;
      slice := slice + {x};
    }
  }
}
