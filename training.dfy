/** What every split function does once the parts are known: read the labels of
    each part from the flattened label grid, transpose its pairs into user and
    item arrays, merge validation into train when `testing` is set, and write
    the training adjacency `label + 1` into a zeroed flat grid. */
module Training {
  import opened Sequences
  import opened Edges
  import opened Splits

  /** One part of the split as returned: labels, users and items, co-indexed. */
  datatype Part = Part(labels: seq<int>, users: seq<int>, items: seq<int>)

  /** `labels[idx]` together with `u_idx, v_idx = pairs.transpose()`. */
  function PartOf(labels: seq<int>, idx: seq<int>, pairs: seq<Pair>): (p: Part)
    requires IndicesBelow(idx, |labels|)
    ensures |p.labels| == |idx| && |p.users| == |p.items| == |pairs|
  {
    Part(Gather(labels, idx), Users(pairs), Items(pairs))
  }

  /** With `testing` set, `np.hstack([train, val])` for labels, users and items. */
  function MergeIfTesting(train: Part, val: Part, testing: bool): Part
  {
    if testing then Part(train.labels + val.labels, train.users + val.users, train.items + val.items)
    else train
  }

  /** The `train_idx` the adjacency is built from: `np.hstack([train_idx, val_idx])` when testing. */
  function AdjacencyIdx(s: Split, testing: bool): seq<int>
  {
    if testing then s.trainIdx + s.valIdx else s.trainIdx
  }

  /** All flat indices of a split address a flattened grid of `size` cells. */
  predicate SplitInRange(s: Split, size: int)
  {
    IndicesBelow(s.trainIdx, size) && IndicesBelow(s.valIdx, size) && IndicesBelow(s.testIdx, size)
  }

  /** The training parts returned by a split function. */
  function TrainPart(labels: seq<int>, s: Split, testing: bool): Part
    requires SplitInRange(s, |labels|)
  {
    MergeIfTesting(PartOf(labels, s.trainIdx, s.trainPairs), PartOf(labels, s.valIdx, s.valPairs), testing)
  }

  /** Testing merge: the returned training labels are exactly the labels read at
      the indices the adjacency is built from, the users and items are those of
      train followed by validation, and all lengths add up. Without `testing`
      the training part is train alone. */
  lemma TrainPartMerge(labels: seq<int>, s: Split, testing: bool)
    requires SplitInRange(s, |labels|)
    ensures IndicesBelow(AdjacencyIdx(s, testing), |labels|)
    ensures TrainPart(labels, s, testing).labels == Gather(labels, AdjacencyIdx(s, testing))
    ensures TrainPart(labels, s, testing).users == Users(if testing then s.trainPairs + s.valPairs else s.trainPairs)
    ensures TrainPart(labels, s, testing).items == Items(if testing then s.trainPairs + s.valPairs else s.trainPairs)
    ensures |TrainPart(labels, s, testing).labels| == |s.trainIdx| + (if testing then |s.valIdx| else 0)
  {
    TransposeConcat(s.trainPairs, s.valPairs);
    if testing {
      assert Gather(labels, s.trainIdx + s.valIdx) == Gather(labels, s.trainIdx) + Gather(labels, s.valIdx);
    }
  }

  /** `adj` is the training adjacency: `labels[f] + 1` at every flat index in
      `trainIdx`, 0 everywhere else. */
  predicate IsTrainAdjacency(adj: seq<int>, labels: seq<int>, trainIdx: seq<int>)
  {
    |adj| == |labels| &&
    forall f :: 0 <= f < |labels| ==> adj[f] == if f in trainIdx then labels[f] + 1 else 0
  }

  /** `rating_mx_train = np.zeros(n)`, then `rating_mx_train[train_idx] = labels[train_idx] + 1`. */
  method TrainAdjacency(labels: seq<int>, trainIdx: seq<int>) returns (adj: array<int>)
    requires IndicesBelow(trainIdx, |labels|)
    ensures IsTrainAdjacency(adj[..], labels, trainIdx)
  {
    adj := new int[|labels|](_ => 0);
    var k := 0;
    while k < |trainIdx|
      invariant 0 <= k <= |trainIdx|
      invariant adj.Length == |labels|
      invariant forall f :: 0 <= f < |labels| ==> adj[f] == if f in trainIdx[..k] then labels[f] + 1 else 0
    {
      var f := trainIdx[k];
      adj[f] := labels[f] + 1;
      assert trainIdx[..k + 1] == trainIdx[..k] + [f];
      k := k + 1;
    }
    assert trainIdx[..k] == trainIdx;
  }

  /** When every training position carries a class (at least 0), the adjacency
      is nonzero exactly at the training positions, and at least 1 there, so
      class 0 stays distinguishable from "no edge". */
  lemma AdjacencyExactlyAtTrain(adj: seq<int>, labels: seq<int>, trainIdx: seq<int>, f: int)
    requires IsTrainAdjacency(adj, labels, trainIdx)
    requires forall k :: 0 <= k < |trainIdx| && 0 <= trainIdx[k] < |labels| ==> labels[trainIdx[k]] >= 0
    requires 0 <= f < |adj|
    ensures adj[f] != 0 <==> f in trainIdx
    ensures f in trainIdx ==> adj[f] >= 1 && adj[f] - 1 == labels[f]
  {
    if f in trainIdx {
      var k :| 0 <= k < |trainIdx| && trainIdx[k] == f;
      assert labels[trainIdx[k]] >= 0;
    }
  }

  /** The parts and the adjacency a split function returns. */
  datatype SplitParts = SplitParts(adjacency: seq<int>, train: Part, val: Part, test: Part)

  /** Lines common to every split function once the split is known: the labels
      of each part, the transposes, the testing merge and the adjacency. */
  method FinishSplit(labels: seq<int>, s: Split, testing: bool) returns (out: SplitParts)
    requires SplitInRange(s, |labels|)
    ensures out.train == TrainPart(labels, s, testing)
    ensures out.val == PartOf(labels, s.valIdx, s.valPairs)
    ensures out.test == PartOf(labels, s.testIdx, s.testPairs)
    ensures IsTrainAdjacency(out.adjacency, labels, AdjacencyIdx(s, testing))
  {
    var train := PartOf(labels, s.trainIdx, s.trainPairs);
    var val := PartOf(labels, s.valIdx, s.valPairs);
    var test := PartOf(labels, s.testIdx, s.testPairs);
    var adjIdx := s.trainIdx;
    if testing {
      train := MergeIfTesting(train, val, true);
      adjIdx := s.trainIdx + s.valIdx;
    }
    var adj := TrainAdjacency(labels, adjIdx);
    out := SplitParts(adj[..], train, val, test);
  }
  /** `out` is what a split function returns for the flattened labels `labels` and the split `s`. */
  predicate SplitFinished(out: SplitParts, labels: seq<int>, s: Split, testing: bool)
    requires SplitInRange(s, |labels|)
  {
    out.train == TrainPart(labels, s, testing) &&
    out.val == PartOf(labels, s.valIdx, s.valPairs) &&
    out.test == PartOf(labels, s.testIdx, s.testPairs) &&
    IsTrainAdjacency(out.adjacency, labels, AdjacencyIdx(s, testing))
  }

  /** With or without the testing merge, the ratio split builds its adjacency from input edges only. */
  lemma RatioAdjacencyFromEdges(idx: seq<int>, pairs: seq<Pair>, testing: bool)
    requires |idx| == |pairs|
    ensures DrawnFrom(AdjacencyIdx(RatioSplit(idx, pairs), testing), idx)
  {
    var s := RatioSplit(idx, pairs);
    RatioSplitDrawnFrom(idx, pairs);
    if testing { DrawnFromConcat(s.trainIdx, s.valIdx, idx); }
  }

  /** With or without the testing merge, the prefix split builds its adjacency
      from training-file edges only: no test edge ever reaches it. */
  lemma PrefixAdjacencyFromTrainFile(idxTrain: seq<int>, pairsTrain: seq<Pair>, idxTest: seq<int>, pairsTest: seq<Pair>,
                                     perm: seq<int>, testing: bool)
    requires |idxTrain| == |pairsTrain| && |idxTest| == |pairsTest|
    requires IsPermutation(perm, |idxTrain|)
    ensures DrawnFrom(AdjacencyIdx(PrefixSplit(idxTrain, pairsTrain, idxTest, pairsTest, perm), testing), idxTrain)
  {
    var s := PrefixSplit(idxTrain, pairsTrain, idxTest, pairsTest, perm);
    PrefixSplitShuffledHead(idxTrain, pairsTrain, idxTest, pairsTest, perm);
    GatherMembers(idxTrain, perm);
    PartsOfConcat(s.valIdx, s.trainIdx, []);
    assert s.valIdx + s.trainIdx + [] == Gather(idxTrain, perm);
    if testing { DrawnFromConcat(s.trainIdx, s.valIdx, idxTrain); }
  }
}
