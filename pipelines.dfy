/** The four loaders, each composed from the same steps: the label grid, the
    flat indices, one of the two splits, the testing merge and the training
    adjacency, followed by the side information of the dataset.

    - `create_trainvaltest_split`: the ratio split of edges already in final order.
    - `load_data_monti`: edges and ratings from the nonzeros of a rating matrix,
      the split from the nonzeros of the training and test masks.
    - `load_official_trainvaltest_split`: the prefix split of the training file
      followed by the test file, then the ml_100k or ml_1m side information.
    - `load_data_books`: the rows outside the test mask followed by the rows in
      it, the prefix split, then the Book-Crossing side information. */
module Pipelines {
  import opened Sequences
  import opened Ratings
  import opened Edges
  import opened Labels
  import opened Splits
  import opened Training
  import opened FeatureBlocks
  import opened FeatureWrites
  import MovieLensFeatures
  import BookFeatures

  /** The returned split: parts, adjacency and `class_values`. */
  datatype SplitOutput = SplitOutput(parts: SplitParts, classValues: seq<int>)

  /** With no edges at all, `np.array([])` has shape `(0,)`, not `(0, 2)`, and
      `u_idx, v_idx = pairs.transpose()` finds nothing to unpack (Python 2's wording). */
  const UnpackError := "ValueError: need more than 0 values to unpack"

  /** An empty list of rows becomes a one-dimensional array, which
      `np.concatenate` cannot join to a two-dimensional array of rows. */
  const ConcatenateError := "ValueError: all the input arrays must have same number of dimensions"

  /** Two empty row lists join into a one-dimensional array, which has no column `[:, 0]`. */
  const ColumnError := "IndexError: too many indices for array"

  /** What joining the rows of a training file and a test file raises (`np.concatenate`
      of `np.array(rows.tolist())`, then reading column 0), when either is empty. */
  /** A ratings file with no row gives an empty float mask, and `~mask` is not
      defined on floats. */
  const InvertError := "TypeError: ufunc 'invert' not supported for the input types"

  function StackError(numTrain: nat, numTest: nat): string
  {
    if numTrain == 0 && numTest == 0 then ColumnError else ConcatenateError
  }

  /** The split of a training file followed by a test file, on co-indexed flat indices. */
  function FileSplit(numItems: int, pairsTrain: seq<Pair>, pairsTest: seq<Pair>, perm: seq<int>): Split
    requires IsPermutation(perm, |pairsTrain|)
  {
    PrefixSplit(FlatIndices(pairsTrain, numItems), pairsTrain, FlatIndices(pairsTest, numItems), pairsTest, perm)
  }

  /** Flat indices drawn from those of edges in the grid address the grid. */
  lemma DrawnFromEdgesInRange(a: seq<int>, pairs: seq<Pair>, numUsers: int, numItems: int)
    requires InGrid(pairs, numUsers, numItems) && DrawnFrom(a, FlatIndices(pairs, numItems))
    ensures IndicesBelow(a, numUsers * numItems)
  {
    FlatIndicesInRange(pairs, numUsers, numItems);
    DrawnBelow(a, FlatIndices(pairs, numItems), numUsers * numItems);
  }

  lemma FlatIndicesConcat(a: seq<Pair>, b: seq<Pair>, numItems: int)
    ensures FlatIndices(a + b, numItems) == FlatIndices(a, numItems) + FlatIndices(b, numItems)
  {
  }

  /** Every flat index of the ratio split addresses the label grid. */
  lemma RatioSplitInRange(pairs: seq<Pair>, numUsers: int, numItems: int)
    requires InGrid(pairs, numUsers, numItems)
    ensures SplitInRange(RatioSplit(FlatIndices(pairs, numItems), pairs), numUsers * numItems)
  {
    var s := RatioSplit(FlatIndices(pairs, numItems), pairs);
    RatioSplitDrawnFrom(FlatIndices(pairs, numItems), pairs);
    DrawnFromEdgesInRange(s.trainIdx, pairs, numUsers, numItems);
    DrawnFromEdgesInRange(s.valIdx, pairs, numUsers, numItems);
    DrawnFromEdgesInRange(s.testIdx, pairs, numUsers, numItems);
  }

  /** Every flat index of the file split addresses the label grid. */
  lemma FileSplitInRange(pairsTrain: seq<Pair>, pairsTest: seq<Pair>, numUsers: int, numItems: int, perm: seq<int>)
    requires InGrid(pairsTrain + pairsTest, numUsers, numItems) && IsPermutation(perm, |pairsTrain|)
    ensures SplitInRange(FileSplit(numItems, pairsTrain, pairsTest, perm), numUsers * numItems)
  {
    var all := pairsTrain + pairsTest;
    var s := FileSplit(numItems, pairsTrain, pairsTest, perm);
    PrefixSplitDrawnFrom(FlatIndices(pairsTrain, numItems), pairsTrain, FlatIndices(pairsTest, numItems), pairsTest, perm);
    FlatIndicesConcat(pairsTrain, pairsTest, numItems);
    DrawnFromEdgesInRange(s.trainIdx, all, numUsers, numItems);
    DrawnFromEdgesInRange(s.valIdx, all, numUsers, numItems);
    DrawnFromEdgesInRange(s.testIdx, all, numUsers, numItems);
  }

  /** The steps shared by every loader once its edges and its split are known. */
  method FinishLoad(numUsers: nat, numItems: nat, pairs: seq<Pair>, ratings: seq<int>, s: Split, testing: bool)
    returns (out: SplitOutput)
    requires |pairs| == |ratings| && InGrid(pairs, numUsers, numItems)
    requires SplitInRange(s, numUsers * numItems)
    ensures out.classValues == ClassValues(ratings)
    ensures SplitFinished(out.parts, LabelGrid(numUsers, numItems, pairs, ratings), s, testing)
  {
    var labels := BuildLabels(numUsers, numItems, pairs, ratings);
    var parts := FinishSplit(labels, s, testing);
    out := SplitOutput(parts, ClassValues(ratings));
  }

  // ---------------------------------------------------------------- create_trainvaltest_split

  /** `create_trainvaltest_split` on the edges `load_data` returned. */
  method CreateTrainValTestSplit(numUsers: nat, numItems: nat, pairs: seq<Pair>, ratings: seq<int>, testing: bool)
    returns (r: Result<SplitOutput>)
    requires |pairs| == |ratings| && InGrid(pairs, numUsers, numItems)
    ensures SplitInRange(RatioSplit(FlatIndices(pairs, numItems), pairs), numUsers * numItems)
    ensures r.Failure? <==> |pairs| == 0
    ensures r.Failure? ==> r.error == UnpackError
    ensures r.Success? ==>
      r.value.classValues == ClassValues(ratings) &&
      SplitFinished(r.value.parts, LabelGrid(numUsers, numItems, pairs, ratings),
                    RatioSplit(FlatIndices(pairs, numItems), pairs), testing)
  {
    var idx := FlatIndices(pairs, numItems);
    var s := RatioSplit(idx, pairs);
    RatioSplitInRange(pairs, numUsers, numItems);
    if |pairs| == 0 {
      return Failure(UnpackError);
    }
    var out := FinishLoad(numUsers, numItems, pairs, ratings, s, testing);
    r := Success(out);
  }

  /** A training adjacency built from observed flat indices is nonzero exactly
      at those indices, and there it holds a class index plus one. */
  lemma AdjacencyMarksTraining(numUsers: nat, numItems: nat, pairs: seq<Pair>, ratings: seq<int>,
                               adjIdx: seq<int>, adj: seq<int>, f: int)
    requires |pairs| == |ratings| && InGrid(pairs, numUsers, numItems)
    requires DrawnFrom(adjIdx, FlatIndices(pairs, numItems))
    requires IsTrainAdjacency(adj, LabelGrid(numUsers, numItems, pairs, ratings), adjIdx) && 0 <= f < |adj|
    ensures adj[f] != 0 <==> f in adjIdx
    ensures f in adjIdx ==> 1 <= adj[f] <= |ClassValues(ratings)|
  {
    var labels := LabelGrid(numUsers, numItems, pairs, ratings);
    var idx := FlatIndices(pairs, numItems);
    forall k | 0 <= k < |adjIdx| && 0 <= adjIdx[k] < |labels| ensures 0 <= labels[adjIdx[k]] < |ClassValues(ratings)| {
      var j :| 0 <= j < |idx| && idx[j] == adjIdx[k];
      FlatLabelIsAClass(numUsers, numItems, pairs, ratings, j);
    }
    AdjacencyExactlyAtTrain(adj, labels, adjIdx, f);
    if f in adjIdx {
      var k :| 0 <= k < |adjIdx| && adjIdx[k] == f;
    }
  }

  /** Ratio split: the adjacency is nonzero exactly at the (merged, when
      testing) training positions, which hold their class index plus one. */
  lemma RatioAdjacencyMarksTraining(numUsers: nat, numItems: nat, pairs: seq<Pair>, ratings: seq<int>, testing: bool,
                                    adj: seq<int>, f: int)
    requires |pairs| == |ratings| && InGrid(pairs, numUsers, numItems)
    requires IsTrainAdjacency(adj, LabelGrid(numUsers, numItems, pairs, ratings),
                              AdjacencyIdx(RatioSplit(FlatIndices(pairs, numItems), pairs), testing))
    requires 0 <= f < |adj|
    ensures adj[f] != 0 <==> f in AdjacencyIdx(RatioSplit(FlatIndices(pairs, numItems), pairs), testing)
    ensures f in AdjacencyIdx(RatioSplit(FlatIndices(pairs, numItems), pairs), testing) ==>
      1 <= adj[f] <= |ClassValues(ratings)|
  {
    RatioAdjacencyFromEdges(FlatIndices(pairs, numItems), pairs, testing);
    AdjacencyMarksTraining(numUsers, numItems, pairs, ratings,
                           AdjacencyIdx(RatioSplit(FlatIndices(pairs, numItems), pairs), testing), adj, f);
  }

  // ---------------------------------------------------------------- training file + test file

  /** File split: the adjacency is nonzero exactly at the (merged, when
      testing) training positions, which hold their class index plus one. */
  lemma FileAdjacencyMarksTraining(numUsers: nat, numItems: nat, pairsTrain: seq<Pair>, ratingsTrain: seq<int>,
                                   pairsTest: seq<Pair>, ratingsTest: seq<int>, perm: seq<int>, testing: bool,
                                   adj: seq<int>, f: int)
    requires |pairsTrain| == |ratingsTrain| && |pairsTest| == |ratingsTest|
    requires InGrid(pairsTrain + pairsTest, numUsers, numItems) && IsPermutation(perm, |pairsTrain|)
    requires IsTrainAdjacency(adj, LabelGrid(numUsers, numItems, pairsTrain + pairsTest, ratingsTrain + ratingsTest),
                              AdjacencyIdx(FileSplit(numItems, pairsTrain, pairsTest, perm), testing))
    requires 0 <= f < |adj|
    ensures adj[f] != 0 <==> f in AdjacencyIdx(FileSplit(numItems, pairsTrain, pairsTest, perm), testing)
    ensures f in AdjacencyIdx(FileSplit(numItems, pairsTrain, pairsTest, perm), testing) ==>
      1 <= adj[f] <= |ClassValues(ratingsTrain + ratingsTest)|
  {
    var adjIdx := AdjacencyIdx(FileSplit(numItems, pairsTrain, pairsTest, perm), testing);
    PrefixAdjacencyFromTrainFile(FlatIndices(pairsTrain, numItems), pairsTrain, FlatIndices(pairsTest, numItems), pairsTest, perm, testing);
    DrawnFromPrefix(adjIdx, FlatIndices(pairsTrain, numItems), FlatIndices(pairsTest, numItems));
    FlatIndicesConcat(pairsTrain, pairsTest, numItems);
    AdjacencyMarksTraining(numUsers, numItems, pairsTrain + pairsTest, ratingsTrain + ratingsTest, adjIdx, adj, f);
  }

  /** No test-file edge reaches the training adjacency, with or without the
      testing merge, when no cell is rated in both files. */
  lemma TestEdgesNotInAdjacency(numUsers: nat, numItems: nat, pairsTrain: seq<Pair>, pairsTest: seq<Pair>,
                                perm: seq<int>, testing: bool, j: int)
    requires InGrid(pairsTrain + pairsTest, numUsers, numItems) && Distinct(pairsTrain + pairsTest)
    requires IsPermutation(perm, |pairsTrain|) && 0 <= j < |pairsTest|
    ensures FlatIndex(pairsTest[j], numItems) !in AdjacencyIdx(FileSplit(numItems, pairsTrain, pairsTest, perm), testing)
  {
    var all := pairsTrain + pairsTest;
    var adjIdx := AdjacencyIdx(FileSplit(numItems, pairsTrain, pairsTest, perm), testing);
    PrefixAdjacencyFromTrainFile(FlatIndices(pairsTrain, numItems), pairsTrain, FlatIndices(pairsTest, numItems), pairsTest, perm, testing);
    var q := pairsTest[j];
    assert all[|pairsTrain| + j] == q;
    if FlatIndex(q, numItems) in adjIdx {
      var k :| 0 <= k < |adjIdx| && adjIdx[k] == FlatIndex(q, numItems);
      var i :| 0 <= i < |pairsTrain| && FlatIndices(pairsTrain, numItems)[i] == adjIdx[k];
      var p := pairsTrain[i];
      assert all[i] == p;
      FlatIndexInjective(p, q, numItems);
      assert false;
    }
  }

  // ---------------------------------------------------------------- load_data_monti

  /** The side-information matrices a Monti dataset provides. */
  datatype MontiDataset =
    | Flixster(wUsers: seq<seq<real>>, wMovies: seq<seq<real>>)
    | Douban(wDoubanUsers: seq<seq<real>>)
    | YahooMusic(wTracks: seq<seq<real>>)

  datatype MontiLoaded = MontiLoaded(uFeatures: seq<seq<real>>, vFeatures: seq<seq<real>>, split: SplitOutput)

  /** `M[np.where(M)]`: the ratings at the nonzeros of `M`, in row-major order. */
  function MontiRatings(m: seq<seq<int>>): (r: seq<int>)
    ensures |r| == |Where(m)|
  {
    var w := Where(m);
    assert forall k :: 0 <= k < |w| ==> 0 <= w[k].u < |m| && 0 <= w[k].v < |m[w[k].u]| by {
      forall k | 0 <= k < |w| ensures 0 <= w[k].u < |m| && 0 <= w[k].v < |m[w[k].u]| {
        assert w[k] in w;
      }
    }
    ValuesAt(m, w)
  }

  /** `load_data_monti` on the loaded matrices `M`, `Otraining` and `Otest`. */
  method LoadDataMonti(dataset: MontiDataset, m: seq<seq<int>>, oTraining: seq<seq<int>>, oTest: seq<seq<int>>,
                       numUsers: nat, numItems: nat, perm: seq<int>, testing: bool) returns (r: Result<MontiLoaded>)
    requires IsMatrix(m, numUsers, numItems) && IsMatrix(oTraining, numUsers, numItems) && IsMatrix(oTest, numUsers, numItems)
    requires IsPermutation(perm, |Where(oTraining)|)
    ensures SplitInRange(FileSplit(numItems, Where(oTraining), Where(oTest), perm), numUsers * numItems)
    ensures r.Failure? <==> Where(oTraining) == [] || Where(oTest) == []
    ensures r.Failure? ==> r.error == if Where(oTraining) == [] && Where(oTest) == [] then UnpackError else ConcatenateError
    ensures r.Success? ==>
      r.value.split.classValues == ClassValues(MontiRatings(m)) &&
      SplitFinished(r.value.split.parts, LabelGrid(numUsers, numItems, Where(m), MontiRatings(m)),
                    FileSplit(numItems, Where(oTraining), Where(oTest), perm), testing)
    ensures r.Success? && dataset.Flixster? ==> r.value.uFeatures == dataset.wUsers && r.value.vFeatures == dataset.wMovies
    ensures r.Success? && dataset.Douban? ==> r.value.uFeatures == dataset.wDoubanUsers && r.value.vFeatures == Eye(numItems)
    ensures r.Success? && dataset.YahooMusic? ==> r.value.uFeatures == Eye(numUsers) && r.value.vFeatures == dataset.wTracks
  {
    var uFeatures, vFeatures;
    match dataset {
      case Flixster(wRow, wCol) => uFeatures, vFeatures := wRow, wCol;
      case Douban(wRow) => uFeatures, vFeatures := wRow, Eye(numItems);
      case YahooMusic(wCol) => uFeatures, vFeatures := Eye(numUsers), wCol;
    }
    var pairs, ratings := Where(m), MontiRatings(m);
    MontiEdges(m, oTraining, oTest, numUsers, numItems, perm);
    LabelsAssertionsHold(numUsers, numItems, pairs, ratings);
    var pairsTrain, pairsTest := Where(oTraining), Where(oTest);
    if pairsTrain == [] && pairsTest == [] {
      return Failure(UnpackError);
    } else if pairsTrain == [] || pairsTest == [] {
      return Failure(ConcatenateError);
    }
    var s := FileSplit(numItems, pairsTrain, pairsTest, perm);
    var parts := FinishLoad(numUsers, numItems, pairs, ratings, s, testing);
    r := Success(MontiLoaded(uFeatures, vFeatures, parts));
  }

  /** The edges of `M` are distinct cells of the grid, the split addresses the
      grid, and the test part has one entry per nonzero of `Otest`
      (`assert(len(test_idx) == num_test)`). */
  lemma MontiEdges(m: seq<seq<int>>, oTraining: seq<seq<int>>, oTest: seq<seq<int>>,
                   numUsers: nat, numItems: nat, perm: seq<int>)
    requires IsMatrix(m, numUsers, numItems) && IsMatrix(oTraining, numUsers, numItems) && IsMatrix(oTest, numUsers, numItems)
    requires IsPermutation(perm, |Where(oTraining)|)
    ensures InGrid(Where(m), numUsers, numItems) && Distinct(Where(m))
    ensures SplitInRange(FileSplit(numItems, Where(oTraining), Where(oTest), perm), numUsers * numItems)
    ensures |FileSplit(numItems, Where(oTraining), Where(oTest), perm).testIdx| == |Where(oTest)|
  {
    WhereInGrid(m, numUsers, numItems);
    MasksInGrid(oTraining, oTest, numUsers, numItems);
    FileSplitSizes(Where(oTraining), Where(oTest), numUsers, numItems, perm);
  }

  /** The nonzeros of both masks are cells of the grid. */
  lemma MasksInGrid(oTraining: seq<seq<int>>, oTest: seq<seq<int>>, numUsers: nat, numItems: nat)
    requires IsMatrix(oTraining, numUsers, numItems) && IsMatrix(oTest, numUsers, numItems)
    ensures InGrid(Where(oTraining) + Where(oTest), numUsers, numItems)
  {
    WhereInGrid(oTraining, numUsers, numItems);
    WhereInGrid(oTest, numUsers, numItems);
    InGridConcat(Where(oTraining), Where(oTest), numUsers, numItems);
  }

  lemma InGridConcat(a: seq<Pair>, b: seq<Pair>, numUsers: int, numItems: int)
    requires InGrid(a, numUsers, numItems) && InGrid(b, numUsers, numItems)
    ensures InGrid(a + b, numUsers, numItems)
  {
    forall k | 0 <= k < |a + b| ensures 0 <= (a + b)[k].u < numUsers && 0 <= (a + b)[k].v < numItems {
      if k >= |a| { assert (a + b)[k] == b[k - |a|]; }
    }
  }

  /** The file split addresses the grid and keeps one test entry per test-file edge. */
  lemma FileSplitSizes(pairsTrain: seq<Pair>, pairsTest: seq<Pair>, numUsers: nat, numItems: nat, perm: seq<int>)
    requires InGrid(pairsTrain + pairsTest, numUsers, numItems) && IsPermutation(perm, |pairsTrain|)
    ensures SplitInRange(FileSplit(numItems, pairsTrain, pairsTest, perm), numUsers * numItems)
    ensures |FileSplit(numItems, pairsTrain, pairsTest, perm).testIdx| == |pairsTest|
  {
    FileSplitInRange(pairsTrain, pairsTest, numUsers, numItems, perm);
    PrefixSplitSizes(FlatIndices(pairsTrain, numItems), pairsTrain, FlatIndices(pairsTest, numItems), pairsTest, perm);
  }

  /** In `load_data_monti` the labels assertion holds for every rating matrix:
      the nonzeros of `M` never repeat a cell. */
  lemma MontiLabelsObserved(m: seq<seq<int>>, numUsers: nat, numItems: nat, k: int)
    requires IsMatrix(m, numUsers, numItems) && 0 <= k < |Where(m)|
    ensures MontiRatings(m)[k] in RatingDictOf(MontiRatings(m))
    ensures 0 <= FlatIndices(Where(m), numItems)[k] < numUsers * numItems
    ensures LabelGrid(numUsers, numItems, Where(m), MontiRatings(m))[FlatIndices(Where(m), numItems)[k]] ==
            RatingDictOf(MontiRatings(m))[MontiRatings(m)[k]]
  {
    WhereInGrid(m, numUsers, numItems);
    FlatLabelObserved(numUsers, numItems, Where(m), MontiRatings(m), k);
  }

  /** Monti: when every cell of the training mask is rated in `M`, the
      adjacency is nonzero exactly at the training positions. */
  lemma MontiAdjacencyMarksTraining(m: seq<seq<int>>, oTraining: seq<seq<int>>, oTest: seq<seq<int>>,
                                    numUsers: nat, numItems: nat, perm: seq<int>, testing: bool, adj: seq<int>, f: int)
    requires IsMatrix(m, numUsers, numItems) && IsMatrix(oTraining, numUsers, numItems) && IsMatrix(oTest, numUsers, numItems)
    requires forall u, v :: 0 <= u < numUsers && 0 <= v < numItems && oTraining[u][v] != 0 ==> m[u][v] != 0
    requires IsPermutation(perm, |Where(oTraining)|)
    requires IsTrainAdjacency(adj, LabelGrid(numUsers, numItems, Where(m), MontiRatings(m)),
                              AdjacencyIdx(FileSplit(numItems, Where(oTraining), Where(oTest), perm), testing))
    requires 0 <= f < |adj|
    ensures adj[f] != 0 <==> f in AdjacencyIdx(FileSplit(numItems, Where(oTraining), Where(oTest), perm), testing)
  {
    var pairsTrain := Where(oTraining);
    var adjIdx := AdjacencyIdx(FileSplit(numItems, pairsTrain, Where(oTest), perm), testing);
    PrefixAdjacencyFromTrainFile(FlatIndices(pairsTrain, numItems), pairsTrain, FlatIndices(Where(oTest), numItems), Where(oTest), perm, testing);
    WhereInGrid(m, numUsers, numItems);
    TrainMaskRated(m, oTraining, numUsers, numItems);
    DrawnFlatIndices(adjIdx, pairsTrain, Where(m), numItems);
    AdjacencyMarksTraining(numUsers, numItems, Where(m), MontiRatings(m), adjIdx, adj, f);
  }

  /** Every nonzero of the training mask is a nonzero of `M`. */
  lemma TrainMaskRated(m: seq<seq<int>>, oTraining: seq<seq<int>>, numUsers: nat, numItems: nat)
    requires IsMatrix(m, numUsers, numItems) && IsMatrix(oTraining, numUsers, numItems)
    requires forall u, v :: 0 <= u < numUsers && 0 <= v < numItems && oTraining[u][v] != 0 ==> m[u][v] != 0
    ensures DrawnFrom(Where(oTraining), Where(m))
  {
    var w := Where(oTraining);
    forall k | 0 <= k < |w| ensures w[k] in Where(m) {
      assert w[k] in w;
    }
  }

  /** Flat indices drawn from those of `a`, where `a` is drawn from `b`, are drawn from those of `b`. */
  lemma DrawnFlatIndices(x: seq<int>, a: seq<Pair>, b: seq<Pair>, numItems: int)
    requires DrawnFrom(x, FlatIndices(a, numItems)) && DrawnFrom(a, b)
    ensures DrawnFrom(x, FlatIndices(b, numItems))
  {
    forall k | 0 <= k < |x| ensures x[k] in FlatIndices(b, numItems) {
      var i :| 0 <= i < |a| && FlatIndices(a, numItems)[i] == x[k];
      var j :| 0 <= j < |b| && b[j] == a[i];
      assert FlatIndices(b, numItems)[j] == x[k];
    }
  }
  // ---------------------------------------------------------------- load_official_trainvaltest_split

  /** The metadata files of the dataset `load_official_trainvaltest_split` was asked for. */
  datatype OfficialDataset =
    | Ml100k(movies: seq<MovieLensFeatures.MovieRow>, users: seq<MovieLensFeatures.UserRow>, occupations: seq<string>)
    | Ml1m(movieGenres: seq<MovieLensFeatures.MovieGenres>, genres: seq<string>, userValues: seq<MovieLensFeatures.UserValues>)
    | OtherDataset(name: string)

  /** The metadata rows have the columns the loader reads, and the set orders list their sets. */
  predicate WellFormedDataset(d: OfficialDataset)
  {
    match d
    case Ml100k(movies, users, occupations) =>
      MovieLensFeatures.WellFormedMovies(movies) && MovieLensFeatures.IsOccupationOrder(users, occupations)
    case Ml1m(movies, genres, users) =>
      MovieLensFeatures.IsGenreOrder(movies, genres) && MovieLensFeatures.WellFormedUsers(users)
    case OtherDataset(_) => true
  }

  /** What a loader with side information returns. */
  datatype Loaded = Loaded(uFeatures: array2<real>, vFeatures: array2<real>, split: SplitOutput)

  /** The in-loop assertions `labels[idx_nonzero[i]] == rating_dict[ratings[i]]`. */
  ghost predicate LabelsAsserted(numUsers: nat, numItems: nat, pairs: seq<Pair>, ratings: seq<int>)
    requires |pairs| == |ratings|
  {
    forall k :: 0 <= k < |pairs| ==>
      ratings[k] in RatingDictOf(ratings) && 0 <= FlatIndices(pairs, numItems)[k] < numUsers * numItems &&
      LabelGrid(numUsers, numItems, pairs, ratings)[FlatIndices(pairs, numItems)[k]] == RatingDictOf(ratings)[ratings[k]]
  }

  lemma LabelsAssertionsHold(numUsers: nat, numItems: nat, pairs: seq<Pair>, ratings: seq<int>)
    requires |pairs| == |ratings| && InGrid(pairs, numUsers, numItems) && Distinct(pairs)
    ensures LabelsAsserted(numUsers, numItems, pairs, ratings)
  {
    forall k | 0 <= k < |pairs|
      ensures ratings[k] in RatingDictOf(ratings) && 0 <= FlatIndices(pairs, numItems)[k] < numUsers * numItems
      ensures LabelGrid(numUsers, numItems, pairs, ratings)[FlatIndices(pairs, numItems)[k]] == RatingDictOf(ratings)[ratings[k]]
    {
      FlatLabelObserved(numUsers, numItems, pairs, ratings, k);
    }
  }

  /** The split part of the file-split loaders: labels from both files, with
      the assertions on them, the prefix split and its test-size assertion. */
  method FileLoad(numUsers: nat, numItems: nat, pairsTrain: seq<Pair>, ratingsTrain: seq<int>,
                  pairsTest: seq<Pair>, ratingsTest: seq<int>, perm: seq<int>, testing: bool) returns (r: Result<SplitOutput>)
    requires |pairsTrain| == |ratingsTrain| && |pairsTest| == |ratingsTest|
    requires InGrid(pairsTrain + pairsTest, numUsers, numItems) && Distinct(pairsTrain + pairsTest)
    requires IsPermutation(perm, |pairsTrain|)
    ensures SplitInRange(FileSplit(numItems, pairsTrain, pairsTest, perm), numUsers * numItems)
    ensures LabelsAsserted(numUsers, numItems, pairsTrain + pairsTest, ratingsTrain + ratingsTest)
    ensures |FileSplit(numItems, pairsTrain, pairsTest, perm).testIdx| == |pairsTest|
    ensures r.Failure? <==> |pairsTrain| + |pairsTest| == 0
    ensures r.Failure? ==> r.error == UnpackError
    ensures r.Success? ==>
      r.value.classValues == ClassValues(ratingsTrain + ratingsTest) &&
      SplitFinished(r.value.parts, LabelGrid(numUsers, numItems, pairsTrain + pairsTest, ratingsTrain + ratingsTest),
                    FileSplit(numItems, pairsTrain, pairsTest, perm), testing)
  {
    var pairs, ratings := pairsTrain + pairsTest, ratingsTrain + ratingsTest;
    LabelsAssertionsHold(numUsers, numItems, pairs, ratings);
    var s := FileSplit(numItems, pairsTrain, pairsTest, perm);
    FileSplitSizes(pairsTrain, pairsTest, numUsers, numItems, perm);
    if |pairs| == 0 {
      return Failure(UnpackError);
    }
    var out := FinishLoad(numUsers, numItems, pairs, ratings, s, testing);
    r := Success(out);
  }

  /** `load_official_trainvaltest_split` on the mapped rows of `u1.base`
      (`pairsTrain`, `ratingsTrain`) and `u1.test` (`pairsTest`, `ratingsTest`). */
  method LoadOfficialTrainValTestSplit(dataset: OfficialDataset, numUsers: nat, numItems: nat,
                                       pairsTrain: seq<Pair>, ratingsTrain: seq<int>,
                                       pairsTest: seq<Pair>, ratingsTest: seq<int>,
                                       perm: seq<int>, testing: bool, uDict: map<int, int>, vDict: map<int, int>)
    returns (r: Result<Loaded>)
    requires |pairsTrain| == |ratingsTrain| && |pairsTest| == |ratingsTest|
    requires InGrid(pairsTrain + pairsTest, numUsers, numItems) && Distinct(pairsTrain + pairsTest)
    requires IsPermutation(perm, |pairsTrain|)
    requires WellFormedDataset(dataset) && ValuesBelow(uDict, numUsers) && ValuesBelow(vDict, numItems)
    ensures SplitInRange(FileSplit(numItems, pairsTrain, pairsTest, perm), numUsers * numItems)
    ensures r.Success? <==>
      |pairsTrain| > 0 && |pairsTest| > 0 &&
      (dataset.Ml1m? || (dataset.Ml100k? && MovieLensFeatures.GendersKnown(dataset.users, uDict)))
    ensures (|pairsTrain| == 0 || |pairsTest| == 0) ==> r == Failure(StackError(|pairsTrain|, |pairsTest|))
    ensures |pairsTrain| > 0 && |pairsTest| > 0 && dataset.OtherDataset? ==> r == Failure("ValueError: Invalid dataset option")
    ensures r.Success? ==>
      r.value.split.classValues == ClassValues(ratingsTrain + ratingsTest) &&
      SplitFinished(r.value.split.parts, LabelGrid(numUsers, numItems, pairsTrain + pairsTest, ratingsTrain + ratingsTest),
                    FileSplit(numItems, pairsTrain, pairsTest, perm), testing)
    ensures r.Success? && dataset.Ml100k? ==>
      r.value.vFeatures.Length0 == numItems && r.value.vFeatures.Length1 == MovieLensFeatures.NumGenres &&
      Holds(r.value.vFeatures, Flatten(MovieLensFeatures.MovieTable(dataset.movies, vDict))) &&
      r.value.uFeatures.Length0 == numUsers && r.value.uFeatures.Length1 == 2 + |dataset.occupations| &&
      Holds(r.value.uFeatures, Flatten(MovieLensFeatures.UserTable(dataset.users, dataset.occupations, uDict)))
    ensures r.Success? && dataset.Ml1m? ==>
      r.value.vFeatures.Length0 == numItems && r.value.vFeatures.Length1 == |dataset.genres| &&
      Holds(r.value.vFeatures, Flatten(MovieLensFeatures.GenreTable(dataset.movieGenres, dataset.genres, vDict))) &&
      r.value.uFeatures.Length0 == numUsers &&
      r.value.uFeatures.Length1 == MovieLensFeatures.Offset(MovieLensFeatures.Blocks(dataset.userValues), MovieLensFeatures.NumUserColumns) &&
      Holds(r.value.uFeatures, Flatten(MovieLensFeatures.ValueTable(dataset.userValues, MovieLensFeatures.Blocks(dataset.userValues), uDict)))
  {
    FileSplitSizes(pairsTrain, pairsTest, numUsers, numItems, perm);
    if |pairsTrain| == 0 || |pairsTest| == 0 {
      return Failure(StackError(|pairsTrain|, |pairsTest|));
    }
    var loaded := FileLoad(numUsers, numItems, pairsTrain, ratingsTrain, pairsTest, ratingsTest, perm, testing);
    var split := loaded.value;
    match dataset {
      case Ml100k(movies, users, occupations) =>
        var vFeatures := MovieLensFeatures.ItemGenreFeatures(numItems, movies, vDict);
        var u := MovieLensFeatures.UserFeatures(numUsers, users, occupations, uDict);
        if u.Failure? {
          return Failure(u.error);
        }
        r := Success(Loaded(u.value, vFeatures, split));
      case Ml1m(movies, genres, users) =>
        var vFeatures := MovieLensFeatures.ItemGenreFeatures1m(numItems, movies, genres, vDict);
        var uFeatures := MovieLensFeatures.UserFeatures1m(numUsers, users, uDict);
        r := Success(Loaded(uFeatures, vFeatures, split));
      case OtherDataset(_) =>
        r := Failure("ValueError: Invalid dataset option");
    }
  }

  // ---------------------------------------------------------------- load_data_books

  /** `s[~mask]`: the rows outside the test mask, in file order. */
  function TrainRows<T>(s: seq<T>, mask: seq<bool>): seq<T>
    requires |s| == |mask|
  {
    Gather(s, MaskIndices(mask, false))
  }

  /** `s[mask]`: the rows in the test mask, in file order. */
  function TestRows<T>(s: seq<T>, mask: seq<bool>): seq<T>
    requires |s| == |mask|
  {
    Gather(s, MaskIndices(mask, true))
  }

  /** `np.concatenate([data_train, data_test])` rearranges the ratings file:
      every row is kept exactly once, `mask.sum()` rows come last, and rows
      that were distinct stay distinct. */
  lemma BooksReorder<T>(s: seq<T>, mask: seq<bool>)
    requires |s| == |mask|
    ensures multiset(TrainRows(s, mask) + TestRows(s, mask)) == multiset(s)
    ensures |TestRows(s, mask)| == CountTrue(mask) && |TrainRows(s, mask)| == |s| - CountTrue(mask)
    ensures Distinct(s) ==> Distinct(TrainRows(s, mask) + TestRows(s, mask))
    ensures DrawnFrom(TrainRows(s, mask) + TestRows(s, mask), s)
  {
    var order := MaskOrder(mask);
    MaskOrderIsPermutation(mask);
    PermutationBounds(order, |mask|);
    assert Gather(s, order) == TrainRows(s, mask) + TestRows(s, mask);
    GatherPermutation(s, order);
    GatherMembers(s, order);
    if Distinct(s) {
      PermutationDistinct(order, |mask|);
      GatherDistinct(s, order);
    }
  }

  /** Rows drawn from edges in the grid are in the grid. */
  lemma DrawnInGrid(a: seq<Pair>, b: seq<Pair>, numUsers: int, numItems: int)
    requires DrawnFrom(a, b) && InGrid(b, numUsers, numItems)
    ensures InGrid(a, numUsers, numItems)
  {
    forall k | 0 <= k < |a| ensures 0 <= a[k].u < numUsers && 0 <= a[k].v < numItems {
      var j :| 0 <= j < |b| && b[j] == a[k];
    }
  }

  /** The class values do not depend on the order of the ratings. */
  lemma ClassValuesOfReorder(a: seq<int>, b: seq<int>)
    requires multiset(a) == multiset(b)
    ensures ClassValues(a) == ClassValues(b)
  {
    forall y ensures y in ClassValues(a) <==> y in ClassValues(b) {
      assert y in a <==> y in multiset(a);
      assert y in b <==> y in multiset(b);
    }
    SortedListingUnique(ClassValues(a), ClassValues(b));
  }

  /** `load_data_books` on the mapped rows of the ratings file, with the test
      mask `mask` and the author columns numbered from 1. */
  method LoadDataBooks(numUsers: nat, numItems: nat, pairs: seq<Pair>, ratings: seq<int>, mask: seq<bool>,
                       perm: seq<int>, testing: bool, books: seq<BookFeatures.BookRow>, authors: seq<string>,
                       users: seq<BookFeatures.BookUser>, uDict: map<int, int>, vDict: map<string, int>)
    returns (r: Result<Loaded>)
    requires |pairs| == |ratings| == |mask|
    requires InGrid(pairs, numUsers, numItems) && Distinct(pairs)
    requires IsPermutation(perm, |pairs| - CountTrue(mask))
    requires BookFeatures.IsAuthorOrder(books, authors) && ValuesBelow(uDict, numUsers) && ValuesBelow(vDict, numItems)
    ensures |TrainRows(pairs, mask)| == |pairs| - CountTrue(mask)
    ensures SplitInRange(FileSplit(numItems, TrainRows(pairs, mask), TestRows(pairs, mask), perm), numUsers * numItems)
    ensures r.Failure? <==> CountTrue(mask) == 0 || CountTrue(mask) == |pairs|
    ensures r.Failure? ==> r.error == if |pairs| == 0 then InvertError else ConcatenateError
    ensures r.Success? ==>
      r.value.split.classValues == ClassValues(ratings) &&
      SplitFinished(r.value.split.parts,
                    LabelGrid(numUsers, numItems, TrainRows(pairs, mask) + TestRows(pairs, mask),
                              TrainRows(ratings, mask) + TestRows(ratings, mask)),
                    FileSplit(numItems, TrainRows(pairs, mask), TestRows(pairs, mask), perm), testing)
    ensures r.Success? ==>
      r.value.vFeatures.Length0 == numItems && r.value.vFeatures.Length1 == BookFeatures.BookWidth(authors) &&
      Holds(r.value.vFeatures, Flatten(BookFeatures.BookTable(books, authors, BookFeatures.FirstAuthorColumn, vDict)))
    ensures r.Success? ==>
      r.value.uFeatures.Length0 == numUsers && r.value.uFeatures.Length1 == 1 &&
      Holds(r.value.uFeatures, Flatten(BookFeatures.AgeTable(users, uDict)))
  {
    var pairsTrain, pairsTest := TrainRows(pairs, mask), TestRows(pairs, mask);
    var ratingsTrain, ratingsTest := TrainRows(ratings, mask), TestRows(ratings, mask);
    BooksReorder(pairs, mask);
    BooksReorder(ratings, mask);
    DrawnInGrid(pairsTrain + pairsTest, pairs, numUsers, numItems);
    ClassValuesOfReorder(ratingsTrain + ratingsTest, ratings);
    FileSplitSizes(pairsTrain, pairsTest, numUsers, numItems, perm);
    if |pairs| == 0 {
      return Failure(InvertError);
    } else if |pairsTrain| == 0 || |pairsTest| == 0 {
      return Failure(ConcatenateError);
    }
    var loaded := FileLoad(numUsers, numItems, pairsTrain, ratingsTrain, pairsTest, ratingsTest, perm, testing);
    var split := loaded.value;
    BookFeatures.CorrectedAuthorsFit(books, authors, vDict);
    var v := BookFeatures.ItemBookFeatures(numItems, books, authors, BookFeatures.FirstAuthorColumn, vDict);
    var uFeatures := BookFeatures.UserAgeFeatures(numUsers, users, uDict);
    match v {
      case Success(vFeatures) => r := Success(Loaded(uFeatures, vFeatures, split));
      case Failure(_) => assert false;
    }
  }
}
