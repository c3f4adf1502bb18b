/** Splitting a list into chunks of a given size. */
module Chunks {
  import opened FixedPoint

  /** A slice whose end may lie past the list. */
  function Slice<T>(arr: seq<T>, start: nat, end: nat): seq<T>
    requires start <= |arr| && start <= end
  {
    arr[start..if end <= |arr| then end else |arr|]
  }

  function Flatten<T>(chunks: seq<seq<T>>): seq<T> {
    if chunks == [] then [] else chunks[0] + Flatten(chunks[1..])
  }

  /** Where the k-th chunk starts. */
  function Offset(k: nat, size: nat): nat { if k == 0 then 0 else Offset(k - 1, size) + size }

  lemma {:induction false} OffsetIsProduct(k: nat, size: nat)
    ensures Offset(k, size) == k * size
  {
    if k > 0 {
      OffsetIsProduct(k - 1, size);
      assert k * size == (k - 1) * size + size;
    }
  }

  lemma {:induction false} OffsetMonotone(j: nat, k: nat, size: nat)
    requires j <= k
    ensures Offset(j, size) <= Offset(k, size)
    decreases k
  {
    if j < k {
      OffsetMonotone(j, k - 1, size);
    }
  }

  /** Chunks of a positive size lie side by side and cover the first `upTo` elements, each cut
      from the whole list. A size of zero never divides an index, which the code reads as
      always starting a chunk: every element yields an empty one. */
  ghost predicate ChunksUpTo<T>(arr: seq<T>, size: nat, chunks: seq<seq<T>>, upTo: nat)
    requires upTo <= |arr|
  {
    if size == 0 then
      |chunks| == upTo && forall k :: 0 <= k < |chunks| ==> chunks[k] == []
    else
      && Offset(|chunks|, size) < upTo + size && upTo <= Offset(|chunks|, size)
      && forall k :: 0 <= k < |chunks| ==>
           Offset(k, size) < upTo && chunks[k] == Slice(arr, Offset(k, size), Offset(k, size) + size)
  }

  ghost predicate ChunksOf<T>(arr: seq<T>, size: nat, chunks: seq<seq<T>>) {
    ChunksUpTo(arr, size, chunks, |arr|)
  }

  /** Position i starts a chunk. */
  predicate Starts(i: nat, size: nat) { size == 0 || i % size == 0 }

  method Chunk<T>(arr: seq<T>, size: nat) returns (chunks: seq<seq<T>>)
    ensures ChunksOf(arr, size, chunks)
  {
    chunks := [];
    for i := 0 to |arr|
      invariant ChunksUpTo(arr, size, chunks, i)
    {
      hide ChunksUpTo, Starts;
      ChunksStep(arr, size, chunks, i);
      if Starts(i, size) {
        chunks := chunks + [Slice(arr, i, i + size)];
      }
    }
  }

  lemma ChunksStep<T>(arr: seq<T>, size: nat, chunks: seq<seq<T>>, i: nat)
    requires i < |arr| && ChunksUpTo(arr, size, chunks, i)
    ensures Starts(i, size) ==> ChunksUpTo(arr, size, chunks + [Slice(arr, i, i + size)], i + 1)
    ensures !Starts(i, size) ==> ChunksUpTo(arr, size, chunks, i + 1)
  {
    if size > 0 {
      hide Starts;
      StartsAtOffset(i, size, |chunks|);
      assert Offset(|chunks| + 1, size) == Offset(|chunks|, size) + size;
    }
  }

  /** Between two chunk starts only the upper one is divisible. */
  lemma StartsAtOffset(i: nat, size: nat, count: nat)
    requires size > 0 && Offset(count, size) < i + size && i <= Offset(count, size)
    ensures Starts(i, size) <==> i == Offset(count, size)
  {
    OffsetIsProduct(count, size);
    assert count * size == size * count;
    if i == Offset(count, size) {
      QuotientUnique(i, size, count);
    } else {
      assert size * (count - 1) == size * count - size;
      QuotientUnique(i, size, count - 1);
    }
    assert i == size * (i / size) + i % size;
  }

  /** Appending the chunks one after the other. */
  lemma {:induction false} FlattenAppend<T>(a: seq<seq<T>>, last: seq<T>)
    ensures Flatten(a + [last]) == Flatten(a) + last
  {
    if a == [] {
      assert a + [last] == [last];
    } else {
      assert (a + [last])[1..] == a[1..] + [last];
      FlattenAppend(a[1..], last);
    }
  }

  lemma {:induction false} FlattenPrefix<T>(arr: seq<T>, size: nat, chunks: seq<seq<T>>, k: nat)
    requires size > 0 && ChunksOf(arr, size, chunks) && k <= |chunks|
    ensures Flatten(chunks[..k]) == arr[..if Offset(k, size) <= |arr| then Offset(k, size) else |arr|]
  {
    if k > 0 {
      FlattenPrefix(arr, size, chunks, k - 1);
      assert chunks[..k] == chunks[..k - 1] + [chunks[k - 1]];
      FlattenAppend(chunks[..k - 1], chunks[k - 1]);
    }
  }

  /** Flattening the chunks gives the list back exactly when the size is positive or there is
      nothing to split. */
  lemma FlattenUndoesChunk<T>(arr: seq<T>, size: nat, chunks: seq<seq<T>>)
    requires ChunksOf(arr, size, chunks)
    ensures Flatten(chunks) == arr <==> size > 0 || arr == []
  {
    if size > 0 {
      FlattenPrefix(arr, size, chunks, |chunks|);
      assert chunks[..|chunks|] == chunks;
    } else {
      FlattenEmpties(chunks);
    }
  }

  lemma {:induction false} FlattenEmpties<T>(chunks: seq<seq<T>>)
    requires forall k :: 0 <= k < |chunks| ==> chunks[k] == []
    ensures Flatten(chunks) == []
  {
    if chunks != [] {
      FlattenEmpties(chunks[1..]);
    }
  }

  /** How many elements the first c chunks hold. */
  function Covered<T>(arr: seq<T>, size: nat, c: nat): nat {
    if c * size <= |arr| then c * size else |arr|
  }

  /** The offset arithmetic finds each element of each chunk, every chunk but the last is
      full, and the chunks end with the list. */
  lemma ChunkIndexing<T>(arr: seq<T>, size: nat, chunks: seq<seq<T>>, c: nat)
    requires size > 0 && ChunksOf(arr, size, chunks) && c <= |chunks|
    ensures c < |chunks| ==>
              && Covered(arr, size, c) == c * size
              && |chunks[c]| == Covered(arr, size, c + 1) - c * size
              && forall i :: 0 <= i < |chunks[c]| ==> chunks[c][i] == arr[c * size + i]
    ensures c + 1 < |chunks| ==> |chunks[c]| == size
    ensures Covered(arr, size, |chunks|) == |arr|
  {
    OffsetIsProduct(c, size);
    OffsetIsProduct(c + 1, size);
    OffsetIsProduct(|chunks|, size);
    if c + 1 < |chunks| {
      assert Offset(c + 1, size) < |arr|;
    }
  }
}
