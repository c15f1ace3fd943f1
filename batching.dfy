/** The batching of `get_abbreviation_meanings`: the abbreviation list is cut
    into consecutive slices of `BatchSize` elements, the last one possibly
    shorter. */
module Batching {

  /** `batch_size`. */
  const BatchSize: nat := 5

  /** The slices `xs[i:i+BatchSize]` for `i` in `range(0, len(xs), BatchSize)`. */
  function Batches<T>(xs: seq<T>): seq<seq<T>>
    decreases |xs|
  {
    if xs == [] then []
    else if |xs| <= BatchSize then [xs]
    else [xs[..BatchSize]] + Batches(xs[BatchSize..])
  }

  function Flatten<T>(xss: seq<seq<T>>): seq<T> {
    if xss == [] then [] else xss[0] + Flatten(xss[1..])
  }

  /** The batches, concatenated in order, are the list: nothing is lost,
      repeated or reordered. */
  lemma {:induction false} BatchesFlatten<T>(xs: seq<T>)
    ensures Flatten(Batches(xs)) == xs
    decreases |xs|
  {
    if |xs| > BatchSize {
      BatchesFlatten(xs[BatchSize..]);
      assert xs == xs[..BatchSize] + xs[BatchSize..];
    } else if xs != [] {
      assert Flatten(Batches(xs)) == xs + Flatten<T>([]);
    }
  }

  /** Every batch holds between 1 and `BatchSize` elements, and all but the
      last hold exactly `BatchSize`. */
  lemma {:induction false} BatchesShape<T>(xs: seq<T>)
    ensures forall k :: 0 <= k < |Batches(xs)| ==> 0 < |Batches(xs)[k]| <= BatchSize
    ensures forall k :: 0 <= k < |Batches(xs)| - 1 ==> |Batches(xs)[k]| == BatchSize
    decreases |xs|
  {
    if |xs| > BatchSize {
      BatchesShape(xs[BatchSize..]);
      var bs := Batches(xs);
      assert bs[1..] == Batches(xs[BatchSize..]);
      assert forall k :: 1 <= k < |bs| ==> bs[k] == bs[1..][k - 1];
    }
  }

  /** There are ceil(n / BatchSize) batches, one service call each. */
  lemma {:induction false} BatchesCount<T>(xs: seq<T>)
    ensures |Batches(xs)| == (|xs| + BatchSize - 1) / BatchSize
    decreases |xs|
  {
    if |xs| > BatchSize {
      BatchesCount(xs[BatchSize..]);
    }
  }

  /** Batch `k` is the slice `xs[BatchSize * k : BatchSize * k + BatchSize]`,
      clipped at the end of the list as Python slicing clips. */
  lemma {:induction false} BatchAt<T>(xs: seq<T>, k: nat)
    requires k < |Batches(xs)|
    ensures BatchSize * k < |xs|
    ensures Batches(xs)[k] == xs[BatchSize * k .. Clip(BatchSize * k + BatchSize, |xs|)]
    decreases |xs|
  {
    if |xs| > BatchSize && k > 0 {
      var rest := xs[BatchSize..];
      BatchAt(rest, k - 1);
      assert Batches(xs)[k] == Batches(rest)[k - 1];
      assert BatchSize * k == BatchSize + BatchSize * (k - 1);
      assert xs[BatchSize * k .. Clip(BatchSize * k + BatchSize, |xs|)]
          == rest[BatchSize * (k - 1) .. Clip(BatchSize * (k - 1) + BatchSize, |rest|)];
    }
  }

  /** Batch `k` exists exactly when the loop offset `BatchSize * k` is still
      inside the list. */
  lemma BatchIndexBound<T>(xs: seq<T>, k: nat)
    ensures k < |Batches(xs)| <==> BatchSize * k < |xs|
  {
    BatchesCount(xs);
  }

  /** The end of a Python slice `xs[i:hi]`: `hi` clipped to the length. */
  function Clip(hi: nat, length: nat): nat {
    if hi <= length then hi else length
  }
}
