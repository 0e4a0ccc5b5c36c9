/** The leave-three-out split of `main`: recordings are numbered in load
    order, and fold `i` tests on recordings `i`, `i + 10` and `i + 20` and
    trains on all the others, each list in load order. */
module Folds {
  const FoldCount := 10

  /** Recording `idx` is in the test set of fold `i`. */
  predicate InTestFold(idx: int, i: int)
  {
    idx == i || idx == i + 10 || idx == i + 20
  }

  /** The indices `idx < n` whose membership in fold `i`'s test set is
      `test`, in increasing order: the `enumerate` comprehension of `main`. */
  function Picked(n: nat, i: int, test: bool): (r: seq<nat>)
    ensures |r| <= n
  {
    if n == 0 then [] else Picked(n - 1, i, test) + (if InTestFold(n - 1, i) == test then [n - 1] else [])
  }

  predicate Increasing(s: seq<nat>)
  {
    forall a, b :: 0 <= a < b < |s| ==> s[a] < s[b]
  }

  /** The picked indices are exactly the indices below `n` on the requested
      side of the fold, without repetition and in load order. */
  lemma PickedExactly(n: nat, i: int, test: bool)
    ensures var p := Picked(n, i, test);
      Increasing(p) && (forall k :: 0 <= k < |p| ==> p[k] < n) &&
      (forall idx :: 0 <= idx < n ==> (idx in p <==> InTestFold(idx, i) == test))
  {
    PickedInOrder(n, i, test);
    PickedMembers(n, i, test);
  }

  lemma {:induction false} PickedInOrder(n: nat, i: int, test: bool)
    ensures var p := Picked(n, i, test);
      Increasing(p) && forall k :: 0 <= k < |p| ==> p[k] < n
  {
    if n > 0 {
      PickedInOrder(n - 1, i, test);
    }
  }

  lemma {:induction false} PickedMembers(n: nat, i: int, test: bool)
    ensures forall idx :: 0 <= idx < n ==> (idx in Picked(n, i, test) <==> InTestFold(idx, i) == test)
  {
    if n > 0 {
      PickedMembers(n - 1, i, test);
      PickedInOrder(n - 1, i, test);
    }
  }

  function Gather<T>(files: seq<T>, idxs: seq<nat>): (r: seq<T>)
    requires forall k :: 0 <= k < |idxs| ==> idxs[k] < |files|
    ensures |r| == |idxs|
    ensures forall k :: 0 <= k < |r| ==> r[k] == files[idxs[k]]
  {
    seq(|idxs|, k requires 0 <= k < |idxs| => files[idxs[k]])
  }

  function TestIndices(n: nat, i: int): seq<nat>
  {
    Picked(n, i, true)
  }

  function TrainIndices(n: nat, i: int): seq<nat>
  {
    Picked(n, i, false)
  }

  /** `test_data` of fold `i`. */
  function TestData<T>(files: seq<T>, i: int): (r: seq<T>)
    ensures |r| == |TestIndices(|files|, i)|
    ensures forall k :: 0 <= k < |r| ==> TestIndices(|files|, i)[k] < |files| && r[k] == files[TestIndices(|files|, i)[k]]
  {
    PickedExactly(|files|, i, true);
    Gather(files, TestIndices(|files|, i))
  }

  /** `train_data` of fold `i`. */
  function TrainData<T>(files: seq<T>, i: int): (r: seq<T>)
    ensures |r| == |TrainIndices(|files|, i)|
    ensures forall k :: 0 <= k < |r| ==> TrainIndices(|files|, i)[k] < |files| && r[k] == files[TrainIndices(|files|, i)[k]]
  {
    PickedExactly(|files|, i, false);
    Gather(files, TrainIndices(|files|, i))
  }

  /** The two sides of a fold are disjoint, together hold every recording,
      and keep the load order. */
  lemma FoldPartitions(n: nat, i: int)
    ensures Increasing(TestIndices(n, i)) && Increasing(TrainIndices(n, i))
    ensures forall idx :: 0 <= idx < n ==> (idx in TestIndices(n, i) <==> idx !in TrainIndices(n, i))
    ensures forall idx :: idx in TestIndices(n, i) || idx in TrainIndices(n, i) ==> 0 <= idx < n
    ensures |TestIndices(n, i)| + |TrainIndices(n, i)| == n
  {
    PickedExactly(n, i, true);
    PickedExactly(n, i, false);
    PickedSizes(n, i);
  }

  lemma {:induction false} PickedSizes(n: nat, i: int)
    ensures |Picked(n, i, true)| + |Picked(n, i, false)| == n
  {
    if n > 0 {
      PickedSizes(n - 1, i);
    }
  }

  /** With the thirty recordings of the three batches, every recording is
      tested in exactly one of the ten folds, fold `idx % 10`. */
  lemma EachRecordingTestedOnce(idx: int)
    requires 0 <= idx < 30
    ensures forall i :: 0 <= i < FoldCount ==> (idx in TestIndices(30, i) <==> i == idx % 10)
  {
    forall i | 0 <= i < FoldCount
      ensures idx in TestIndices(30, i) <==> i == idx % 10
    {
      PickedExactly(30, i, true);
    }
  }

  /** ... and each fold then tests on three recordings and trains on 27. */
  lemma FoldSizesOfThirty(i: int)
    requires 0 <= i < FoldCount
    ensures TestIndices(30, i) == [i, i + 10, i + 20]
    ensures |TrainIndices(30, i)| == 27
  {
    PickedSizes(30, i);
    TestIndicesBelow(30, i);
  }

  /** For a fold of the ten, the test indices are those of `i`, `i + 10`
      and `i + 20` that exist. */
  lemma {:induction false} TestIndicesBelow(n: nat, i: int)
    requires 0 <= i < FoldCount
    ensures TestIndices(n, i) ==
      (if i < n then [i] else []) + (if i + 10 < n then [i + 10] else []) + (if i + 20 < n then [i + 20] else [])
  {
    if n > 0 {
      TestIndicesBelow(n - 1, i);
    }
  }

  /** The `for i in range(10)` loop of `main`, as far as it splits: the
      training and test recordings of every fold, in fold order. */
  method CrossValidationSplits<T>(files: seq<T>) returns (splits: seq<(seq<T>, seq<T>)>)
    ensures |splits| == FoldCount
    ensures forall i :: 0 <= i < FoldCount ==> splits[i] == (TrainData(files, i), TestData(files, i))
  {
    splits := [];
    for i := 0 to FoldCount
      invariant |splits| == i
      invariant forall j :: 0 <= j < i ==> splits[j] == (TrainData(files, j), TestData(files, j))
    {
      splits := splits + [(TrainData(files, i), TestData(files, i))];
    }
  }
}
