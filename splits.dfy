/** The two ways the observed edges are cut into train, validation and test.

    The ratio split (`create_trainvaltest_split`) cuts the edges, already in
    their final order, into three consecutive slices. The prefix split (the
    official, Monti and book-crossing loaders) keeps the training-file edges
    first and the test-file edges after them, shuffles only the training-file
    edges, takes the first fifth (rounded up) of them as validation and keeps
    the test edges in their original order. Both operate on the flat indices
    and on the pairs in lock step. */
module Splits {
  import opened Sequences
  import opened Edges

  /** The parts of a split, as flat indices and as (user, item) pairs. */
  datatype Split = Split(trainIdx: seq<int>, valIdx: seq<int>, testIdx: seq<int>,
                         trainPairs: seq<Pair>, valPairs: seq<Pair>, testPairs: seq<Pair>)

  /** Integer ceiling of `a / b`. */
  function CeilDiv(a: nat, b: nat): (c: nat)
    requires b > 0
    ensures c * b >= a && (c == 0 || (c - 1) * b < a)
  {
    var c := (a + b - 1) / b;
    assert c * b + (a + b - 1) % b == a + b - 1;
    c
  }

  /** `int(np.ceil(n * 0.1))`: the number of test edges of the ratio split. */
  function RatioTestCount(n: nat): nat
  {
    CeilDiv(n, 10)
  }

  /** `int(np.ceil(n * 0.9 * 0.05))`: the number of validation edges of the
      ratio split (both dataset branches of the source use this formula). */
  function RatioValCount(n: nat): nat
  {
    CeilDiv(9 * n, 200)
  }

  /** `n - num_val - num_test`, which is negative for a single edge. */
  function RatioTrainCount(n: nat): int
  {
    n - RatioValCount(n) - RatioTestCount(n)
  }

  /** The ratio split: `idx[0:num_train]`, `idx[num_train:num_train + num_val]`
      and `idx[num_train + num_val:]`, with Python slice semantics. */
  function RatioSplit(idx: seq<int>, pairs: seq<Pair>): Split
    requires |idx| == |pairs|
  {
    var n := |pairs|;
    var numTrain := RatioTrainCount(n);
    var numVal := RatioValCount(n);
    Split(PySlice(idx, 0, numTrain), PySlice(idx, numTrain, numTrain + numVal), PySlice(idx, numTrain + numVal, n),
          PySlice(pairs, 0, numTrain), PySlice(pairs, numTrain, numTrain + numVal), PySlice(pairs, numTrain + numVal, n))
  }

  /** The three counts always add up to the number of edges, and the training
      count is nonnegative for every number of edges except one. */
  lemma RatioCounts(n: nat)
    ensures RatioTrainCount(n) + RatioValCount(n) + RatioTestCount(n) == n
    ensures RatioTrainCount(n) >= 0 <==> n != 1
    ensures RatioTestCount(n) <= n && RatioValCount(n) <= n
  {
  }

  /** Train, validation and test are consecutive slices that, concatenated,
      give back every edge in its order: the parts cover every edge exactly once.
      This holds for every number of edges, including the single edge where the
      training count is negative. */
  lemma RatioSplitCovers(idx: seq<int>, pairs: seq<Pair>)
    requires |idx| == |pairs|
    ensures RatioSplit(idx, pairs).trainIdx + RatioSplit(idx, pairs).valIdx + RatioSplit(idx, pairs).testIdx == idx
    ensures RatioSplit(idx, pairs).trainPairs + RatioSplit(idx, pairs).valPairs + RatioSplit(idx, pairs).testPairs == pairs
  {
    var n := |pairs|;
    RatioCounts(n);
    var s := RatioSplit(idx, pairs);
    if n == 1 {
      assert s.trainIdx == [] && s.valIdx == [] && s.testIdx == idx;
      assert s.trainPairs == [] && s.valPairs == [] && s.testPairs == pairs;
    } else {
      var a, b := RatioTrainCount(n), RatioTrainCount(n) + RatioValCount(n);
      assert idx == idx[..a] + idx[a..b] + idx[b..];
      assert pairs == pairs[..a] + pairs[a..b] + pairs[b..];
    }
  }

  /** For two or more edges each part has exactly the size the counts promise. */
  lemma RatioSplitSizes(idx: seq<int>, pairs: seq<Pair>)
    requires |idx| == |pairs| && |pairs| != 1
    ensures |RatioSplit(idx, pairs).trainIdx| == |RatioSplit(idx, pairs).trainPairs| == RatioTrainCount(|pairs|)
    ensures |RatioSplit(idx, pairs).valIdx| == |RatioSplit(idx, pairs).valPairs| == RatioValCount(|pairs|)
    ensures |RatioSplit(idx, pairs).testIdx| == |RatioSplit(idx, pairs).testPairs| == RatioTestCount(|pairs|)
  {
    RatioCounts(|pairs|);
  }

  /** Slicing the flat indices and slicing the pairs at the same bounds keep them co-indexed. */
  lemma FlatIndicesSlice(pairs: seq<Pair>, numItems: int, lo: int, hi: int)
    ensures PySlice(FlatIndices(pairs, numItems), lo, hi) == FlatIndices(PySlice(pairs, lo, hi), numItems)
  {
  }

  /** When the flat indices are those of the pairs, each part of the ratio split
      lists the flat indices of its own pairs. */
  lemma RatioSplitCoIndexed(pairs: seq<Pair>, numItems: int)
    ensures RatioSplit(FlatIndices(pairs, numItems), pairs).trainIdx == FlatIndices(RatioSplit(FlatIndices(pairs, numItems), pairs).trainPairs, numItems)
    ensures RatioSplit(FlatIndices(pairs, numItems), pairs).valIdx == FlatIndices(RatioSplit(FlatIndices(pairs, numItems), pairs).valPairs, numItems)
    ensures RatioSplit(FlatIndices(pairs, numItems), pairs).testIdx == FlatIndices(RatioSplit(FlatIndices(pairs, numItems), pairs).testPairs, numItems)
  {
    var n := |pairs|;
    var a, b := RatioTrainCount(n), RatioTrainCount(n) + RatioValCount(n);
    FlatIndicesSlice(pairs, numItems, 0, a);
    FlatIndicesSlice(pairs, numItems, a, b);
    FlatIndicesSlice(pairs, numItems, b, n);
  }

  /** `int(np.ceil(num_train * 0.2))`: how many of the shuffled training-file
      edges become validation edges. */
  function PrefixValCount(numTrainRows: nat): (c: nat)
    ensures c <= numTrainRows
  {
    CeilDiv(numTrainRows, 5)
  }

  /** The prefix split. The training-file edges are reordered by the shuffled
      `rand_idx` (`perm`), the test-file edges are appended unchanged, and the
      result is cut into validation `[0, num_val)`, train `[num_val, rows)` and
      test `[rows, n)`, where `rows` is the number of training-file edges. */
  function PrefixSplit(idxTrain: seq<int>, pairsTrain: seq<Pair>, idxTest: seq<int>, pairsTest: seq<Pair>,
                       perm: seq<int>): Split
    requires |idxTrain| == |pairsTrain| && |idxTest| == |pairsTest|
    requires IsPermutation(perm, |idxTrain|)
  {
    PermutationBounds(perm, |idxTrain|);
    var idx := Gather(idxTrain, perm) + idxTest;
    var pairs := Gather(pairsTrain, perm) + pairsTest;
    var numVal := PrefixValCount(|idxTrain|);
    var numTrain := |idxTrain| - numVal;
    Split(idx[numVal..numTrain + numVal], idx[..numVal], idx[numTrain + numVal..],
          pairs[numVal..numTrain + numVal], pairs[..numVal], pairs[numTrain + numVal..])
  }

  /** Sizes of the prefix split: `num_val` validation edges, `rows - num_val`
      training edges and exactly the test-file edges (`len(test_idx) == num_test`). */
  lemma PrefixSplitSizes(idxTrain: seq<int>, pairsTrain: seq<Pair>, idxTest: seq<int>, pairsTest: seq<Pair>, perm: seq<int>)
    requires |idxTrain| == |pairsTrain| && |idxTest| == |pairsTest|
    requires IsPermutation(perm, |idxTrain|)
    ensures |PrefixSplit(idxTrain, pairsTrain, idxTest, pairsTest, perm).valIdx| == PrefixValCount(|idxTrain|)
    ensures |PrefixSplit(idxTrain, pairsTrain, idxTest, pairsTest, perm).trainIdx| == |idxTrain| - PrefixValCount(|idxTrain|)
    ensures |PrefixSplit(idxTrain, pairsTrain, idxTest, pairsTest, perm).testIdx| == |idxTest|
    ensures |PrefixSplit(idxTrain, pairsTrain, idxTest, pairsTest, perm).valPairs| == PrefixValCount(|idxTrain|)
    ensures |PrefixSplit(idxTrain, pairsTrain, idxTest, pairsTest, perm).trainPairs| == |idxTrain| - PrefixValCount(|idxTrain|)
    ensures |PrefixSplit(idxTrain, pairsTrain, idxTest, pairsTest, perm).testPairs| == |idxTest|
  {
    PermutationBounds(perm, |idxTrain|);
  }

  /** The test part is the test-file suffix, untouched and in its original order. */
  lemma PrefixSplitKeepsTest(idxTrain: seq<int>, pairsTrain: seq<Pair>, idxTest: seq<int>, pairsTest: seq<Pair>, perm: seq<int>)
    requires |idxTrain| == |pairsTrain| && |idxTest| == |pairsTest|
    requires IsPermutation(perm, |idxTrain|)
    ensures PrefixSplit(idxTrain, pairsTrain, idxTest, pairsTest, perm).testIdx == idxTest
    ensures PrefixSplit(idxTrain, pairsTrain, idxTest, pairsTest, perm).testPairs == pairsTest
  {
    PermutationBounds(perm, |idxTrain|);
  }

  /** Validation followed by train is the shuffled training file. */
  lemma PrefixSplitShuffledHead(idxTrain: seq<int>, pairsTrain: seq<Pair>, idxTest: seq<int>, pairsTest: seq<Pair>, perm: seq<int>)
    requires |idxTrain| == |pairsTrain| && |idxTest| == |pairsTest|
    requires IsPermutation(perm, |idxTrain|)
    ensures IndicesBelow(perm, |idxTrain|)
    ensures PrefixSplit(idxTrain, pairsTrain, idxTest, pairsTest, perm).valIdx
          + PrefixSplit(idxTrain, pairsTrain, idxTest, pairsTest, perm).trainIdx == Gather(idxTrain, perm)
    ensures PrefixSplit(idxTrain, pairsTrain, idxTest, pairsTest, perm).valPairs
          + PrefixSplit(idxTrain, pairsTrain, idxTest, pairsTest, perm).trainPairs == Gather(pairsTrain, perm)
  {
    PermutationBounds(perm, |idxTrain|);
    var s := PrefixSplit(idxTrain, pairsTrain, idxTest, pairsTest, perm);
    var idx := Gather(idxTrain, perm) + idxTest;
    var pairs := Gather(pairsTrain, perm) + pairsTest;
    var m := |idxTrain|;
    assert s.valIdx + s.trainIdx == idx[..m];
    assert s.valPairs + s.trainPairs == pairs[..m];
  }

  /** Partition: validation, train and test together hold exactly the edges of
      both files, each as often as it occurs there. */
  lemma PrefixSplitPartition(idxTrain: seq<int>, pairsTrain: seq<Pair>, idxTest: seq<int>, pairsTest: seq<Pair>, perm: seq<int>)
    requires |idxTrain| == |pairsTrain| && |idxTest| == |pairsTest|
    requires IsPermutation(perm, |idxTrain|)
    ensures multiset(PrefixSplit(idxTrain, pairsTrain, idxTest, pairsTest, perm).valIdx
                   + PrefixSplit(idxTrain, pairsTrain, idxTest, pairsTest, perm).trainIdx
                   + PrefixSplit(idxTrain, pairsTrain, idxTest, pairsTest, perm).testIdx)
         == multiset(idxTrain + idxTest)
    ensures multiset(PrefixSplit(idxTrain, pairsTrain, idxTest, pairsTest, perm).valPairs
                   + PrefixSplit(idxTrain, pairsTrain, idxTest, pairsTest, perm).trainPairs
                   + PrefixSplit(idxTrain, pairsTrain, idxTest, pairsTest, perm).testPairs)
         == multiset(pairsTrain + pairsTest)
  {
    PrefixSplitShuffledHead(idxTrain, pairsTrain, idxTest, pairsTest, perm);
    PrefixSplitKeepsTest(idxTrain, pairsTrain, idxTest, pairsTest, perm);
    GatherPermutation(idxTrain, perm);
    GatherPermutation(pairsTrain, perm);
  }

  /** Gathering the flat indices and the pairs through the same permutation
      keeps `idx[k] == pairs[k].u * num_items + pairs[k].v` at every position. */
  lemma GatherCoIndexed(pairs: seq<Pair>, numItems: int, perm: seq<int>)
    requires IndicesBelow(perm, |pairs|)
    ensures Gather(FlatIndices(pairs, numItems), perm) == FlatIndices(Gather(pairs, perm), numItems)
  {
  }

  /** When the flat indices of both files are those of their pairs, every part
      of the prefix split lists the flat indices of its own pairs. */
  lemma PrefixSplitCoIndexed(pairsTrain: seq<Pair>, pairsTest: seq<Pair>, numItems: int, perm: seq<int>)
    requires IsPermutation(perm, |pairsTrain|)
    ensures var s := PrefixSplit(FlatIndices(pairsTrain, numItems), pairsTrain, FlatIndices(pairsTest, numItems), pairsTest, perm);
            s.valIdx == FlatIndices(s.valPairs, numItems) &&
            s.trainIdx == FlatIndices(s.trainPairs, numItems) &&
            s.testIdx == FlatIndices(s.testPairs, numItems)
  {
    PermutationBounds(perm, |pairsTrain|);
    GatherCoIndexed(pairsTrain, numItems, perm);
    var idx := Gather(FlatIndices(pairsTrain, numItems), perm) + FlatIndices(pairsTest, numItems);
    var pairs := Gather(pairsTrain, perm) + pairsTest;
    assert idx == FlatIndices(pairs, numItems);
  }

  /** When no edge occurs twice in the two files, the three parts are pairwise
      disjoint and none repeats an edge. */
  lemma PrefixSplitDisjoint(idxTrain: seq<int>, pairsTrain: seq<Pair>, idxTest: seq<int>, pairsTest: seq<Pair>, perm: seq<int>)
    requires |idxTrain| == |pairsTrain| && |idxTest| == |pairsTest|
    requires IsPermutation(perm, |idxTrain|)
    requires Distinct(pairsTrain + pairsTest)
    ensures var s := PrefixSplit(idxTrain, pairsTrain, idxTest, pairsTest, perm);
            Distinct(s.valPairs) && Distinct(s.trainPairs) && Distinct(s.testPairs) &&
            Disjoint(s.valPairs, s.trainPairs) && Disjoint(s.valPairs, s.testPairs) && Disjoint(s.trainPairs, s.testPairs)
  {
    PermutationBounds(perm, |idxTrain|);
    PermutationDistinct(perm, |idxTrain|);
    var m := |pairsTrain|;
    assert Distinct(pairsTrain) && Distinct(pairsTest) && Disjoint(pairsTrain, pairsTest) by {
      var all := pairsTrain + pairsTest;
      forall i, j | 0 <= i < m && 0 <= j < |pairsTest| ensures pairsTrain[i] != pairsTest[j] {
        assert all[i] == pairsTrain[i] && all[m + j] == pairsTest[j];
      }
      forall i, j | 0 <= i < |pairsTest| && 0 <= j < |pairsTest| && i != j ensures pairsTest[i] != pairsTest[j] {
        assert all[m + i] == pairsTest[i] && all[m + j] == pairsTest[j];
      }
      forall i, j | 0 <= i < m && 0 <= j < m && i != j ensures pairsTrain[i] != pairsTrain[j] {
        assert all[i] == pairsTrain[i] && all[j] == pairsTrain[j];
      }
    }
    var shuffled := Gather(pairsTrain, perm);
    GatherDistinct(pairsTrain, perm);
    assert Disjoint(shuffled, pairsTest) by {
      forall i, j | 0 <= i < |shuffled| && 0 <= j < |pairsTest| ensures shuffled[i] != pairsTest[j] {
        assert shuffled[i] == pairsTrain[perm[i]];
      }
    }
    DistinctConcat(shuffled, pairsTest);
    var pairs := shuffled + pairsTest;
    var numVal := PrefixValCount(m);
    var n := |pairs|;
    DistinctSlices(pairs, 0, numVal, numVal, m);
    DistinctSlices(pairs, 0, numVal, m, n);
    DistinctSlices(pairs, numVal, m, m, n);
    DistinctSlice(pairs, 0, numVal);
    DistinctSlice(pairs, numVal, m);
    DistinctSlice(pairs, m, n);
  }
  /** Every flat index of the ratio split is one of the input flat indices. */
  lemma RatioSplitDrawnFrom(idx: seq<int>, pairs: seq<Pair>)
    requires |idx| == |pairs|
    ensures var s := RatioSplit(idx, pairs);
      DrawnFrom(s.trainIdx, idx) && DrawnFrom(s.valIdx, idx) && DrawnFrom(s.testIdx, idx)
  {
    var s := RatioSplit(idx, pairs);
    RatioSplitCovers(idx, pairs);
    PartsOfConcat(s.trainIdx, s.valIdx, s.testIdx);
  }

  /** Every flat index of the prefix split is one of the flat indices of the two files. */
  lemma PrefixSplitDrawnFrom(idxTrain: seq<int>, pairsTrain: seq<Pair>, idxTest: seq<int>, pairsTest: seq<Pair>, perm: seq<int>)
    requires |idxTrain| == |pairsTrain| && |idxTest| == |pairsTest|
    requires IsPermutation(perm, |idxTrain|)
    ensures var s := PrefixSplit(idxTrain, pairsTrain, idxTest, pairsTest, perm);
      DrawnFrom(s.trainIdx, idxTrain + idxTest) && DrawnFrom(s.valIdx, idxTrain + idxTest) &&
      DrawnFrom(s.testIdx, idxTrain + idxTest)
  {
    var s := PrefixSplit(idxTrain, pairsTrain, idxTest, pairsTest, perm);
    PrefixSplitPartition(idxTrain, pairsTrain, idxTest, pairsTest, perm);
    PartsOfMultiset(s.valIdx, s.trainIdx, s.testIdx, idxTrain + idxTest);
  }
}
