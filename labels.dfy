/** The label grid of a split: a `num_users x num_items` grid filled with the
    sentinel, overwritten at every observed edge with the class index of its
    rating, then read back row by row. */
module Labels {
  import opened Sequences
  import opened Ratings
  import opened Edges

  /** Every rating has a class in `dict`. */
  predicate AllKeys(ratings: seq<int>, dict: map<int, int>)
  {
    forall k :: 0 <= k < |ratings| ==> ratings[k] in dict
  }

  /** The label of cell `p` after `labels[u_nodes, v_nodes] = [dict[r] for r in ratings]`
      on a grid of sentinels: the class of the last rating written to `p`, or
      the sentinel when no edge addresses `p`. */
  function LabelAt(pairs: seq<Pair>, ratings: seq<int>, dict: map<int, int>, p: Pair): int
    requires |pairs| == |ratings| && AllKeys(ratings, dict)
  {
    if pairs == [] then NeutralRating
    else
      var last := |pairs| - 1;
      if pairs[last] == p then dict[ratings[last]]
      else LabelAt(pairs[..last], ratings[..last], dict, p)
  }

  /** A cell no edge addresses keeps the sentinel. */
  lemma {:induction false} UnobservedLabel(pairs: seq<Pair>, ratings: seq<int>, dict: map<int, int>, p: Pair)
    requires |pairs| == |ratings| && AllKeys(ratings, dict)
    requires p !in pairs
    ensures LabelAt(pairs, ratings, dict, p) == NeutralRating
  {
    if pairs != [] {
      var last := |pairs| - 1;
      assert pairs[last] in pairs;
      assert p !in pairs[..last];
      UnobservedLabel(pairs[..last], ratings[..last], dict, p);
    }
  }

  /** A cell some edge addresses holds the class of one of that cell's ratings. */
  lemma {:induction false} ObservedLabelIsAClass(pairs: seq<Pair>, ratings: seq<int>, dict: map<int, int>, p: Pair)
    requires |pairs| == |ratings| && AllKeys(ratings, dict)
    requires p in pairs
    ensures exists k :: 0 <= k < |pairs| && pairs[k] == p && LabelAt(pairs, ratings, dict, p) == dict[ratings[k]]
  {
    var last := |pairs| - 1;
    if pairs[last] != p {
      var j :| 0 <= j < |pairs| && pairs[j] == p;
      assert pairs[..last][j] == p;
      ObservedLabelIsAClass(pairs[..last], ratings[..last], dict, p);
      var k :| 0 <= k < last && pairs[..last][k] == p && LabelAt(pairs[..last], ratings[..last], dict, p) == dict[ratings[..last][k]];
      assert pairs[k] == p && ratings[k] == ratings[..last][k];
    }
  }

  /** When no cell is rated twice, every observed cell holds exactly the class of
      its own rating: the assertion `labels[u_nodes[i], v_nodes[i]] == rating_dict[ratings[i]]`. */
  lemma {:induction false} ObservedLabel(pairs: seq<Pair>, ratings: seq<int>, dict: map<int, int>, k: int)
    requires |pairs| == |ratings| && AllKeys(ratings, dict)
    requires Distinct(pairs) && 0 <= k < |pairs|
    ensures LabelAt(pairs, ratings, dict, pairs[k]) == dict[ratings[k]]
  {
    var last := |pairs| - 1;
    if k != last {
      assert pairs[last] != pairs[k];
      assert pairs[..last][k] == pairs[k];
      ObservedLabel(pairs[..last], ratings[..last], dict, k);
    }
  }

  /** With the dictionary built from the ratings themselves, the sentinel marks
      exactly the cells no edge addresses: it never collides with a class. */
  lemma SentinelExactlyUnobserved(pairs: seq<Pair>, ratings: seq<int>, p: Pair)
    requires |pairs| == |ratings|
    ensures AllKeys(ratings, RatingDictOf(ratings))
    ensures LabelAt(pairs, ratings, RatingDictOf(ratings), p) == NeutralRating <==> p !in pairs
  {
    var dict := RatingDictOf(ratings);
    assert AllKeys(ratings, dict) by {
      forall k | 0 <= k < |ratings| ensures ratings[k] in dict {
        var r := ratings[k];
        assert r in ratings;
      }
    }
    if p in pairs {
      ObservedLabelIsAClass(pairs, ratings, dict, p);
    } else {
      UnobservedLabel(pairs, ratings, dict, p);
    }
  }

  /** `labels = np.full((num_users, num_items), -1)` followed by
      `labels[u_nodes, v_nodes] = np.array([rating_dict[r] for r in ratings])`. */
  method FillLabels(numUsers: nat, numItems: nat, pairs: seq<Pair>, ratings: seq<int>, dict: map<int, int>)
    returns (labels: array2<int>)
    requires |pairs| == |ratings| && InGrid(pairs, numUsers, numItems) && AllKeys(ratings, dict)
    ensures labels.Length0 == numUsers && labels.Length1 == numItems
    ensures forall u, v :: 0 <= u < numUsers && 0 <= v < numItems ==>
              labels[u, v] == LabelAt(pairs, ratings, dict, Pair(u, v))
  {
    labels := new int[numUsers, numItems]((u, v) => NeutralRating);
    var values := seq(|ratings|, k requires 0 <= k < |ratings| => dict[ratings[k]]);
    var k := 0;
    while k < |pairs|
      invariant 0 <= k <= |pairs|
      invariant forall u, v :: 0 <= u < numUsers && 0 <= v < numItems ==>
                  labels[u, v] == LabelAt(pairs[..k], ratings[..k], dict, Pair(u, v))
    {
      labels[pairs[k].u, pairs[k].v] := values[k];
      assert pairs[..k + 1][..k] == pairs[..k] && ratings[..k + 1][..k] == ratings[..k];
      k := k + 1;
    }
    assert pairs[..k] == pairs && ratings[..k] == ratings;
  }

  /** `labels.reshape([-1])`: the grid read row by row. */
  function Reshape(g: array2<int>): (flat: seq<int>)
    reads g
    ensures |flat| == g.Length0 * g.Length1
  {
    seq(g.Length0 * g.Length1, f requires 0 <= f < g.Length0 * g.Length1 reads g =>
      CellOfFlatIndex(f, g.Length0, g.Length1);
      g[f / g.Length1, f % g.Length1])
  }

  /** The flattened grid holds cell `(u, v)` at flat index `u * num_items + v`. */
  lemma ReshapeAt(g: array2<int>, p: Pair)
    requires 0 <= p.u < g.Length0 && 0 <= p.v < g.Length1
    ensures 0 <= FlatIndex(p, g.Length1) < |Reshape(g)|
    ensures Reshape(g)[FlatIndex(p, g.Length1)] == g[p.u, p.v]
  {
    FlatIndexBounds(p, g.Length0, g.Length1);
    FlatIndexDivMod(p, g.Length1);
  }
  /** The flattened label grid a split function builds from its edges:
      `labels.reshape([-1])` after filling with the classes of `rating_dict`. */
  function LabelGrid(numUsers: nat, numItems: nat, pairs: seq<Pair>, ratings: seq<int>): (g: seq<int>)
    requires |pairs| == |ratings|
    ensures |g| == numUsers * numItems
  {
    SentinelExactlyUnobserved(pairs, ratings, Pair(0, 0));
    seq(numUsers * numItems, f requires 0 <= f < numUsers * numItems =>
      CellOfFlatIndex(f, numUsers, numItems);
      LabelAt(pairs, ratings, RatingDictOf(ratings), Pair(f / numItems, f % numItems)))
  }

  /** The flattened grid holds at flat index `u * num_items + v` the label of cell `(u, v)`. */
  lemma LabelGridAt(numUsers: nat, numItems: nat, pairs: seq<Pair>, ratings: seq<int>, p: Pair)
    requires |pairs| == |ratings| && 0 <= p.u < numUsers && 0 <= p.v < numItems
    ensures AllKeys(ratings, RatingDictOf(ratings))
    ensures 0 <= FlatIndex(p, numItems) < numUsers * numItems
    ensures LabelGrid(numUsers, numItems, pairs, ratings)[FlatIndex(p, numItems)] ==
            LabelAt(pairs, ratings, RatingDictOf(ratings), p)
  {
    SentinelExactlyUnobserved(pairs, ratings, p);
    FlatIndexBounds(p, numUsers, numItems);
    FlatIndexDivMod(p, numItems);
  }

  /** Grid filling, flattening and reading back: the in-loop assertion
      `labels[idx_nonzero[i]] == rating_dict[ratings[i]]` holds at every edge when
      no cell is rated twice. */
  lemma FlatLabelObserved(numUsers: nat, numItems: nat, pairs: seq<Pair>, ratings: seq<int>, k: int)
    requires |pairs| == |ratings| && InGrid(pairs, numUsers, numItems) && Distinct(pairs) && 0 <= k < |pairs|
    ensures ratings[k] in RatingDictOf(ratings)
    ensures 0 <= FlatIndices(pairs, numItems)[k] < numUsers * numItems
    ensures LabelGrid(numUsers, numItems, pairs, ratings)[FlatIndices(pairs, numItems)[k]] == RatingDictOf(ratings)[ratings[k]]
  {
    var p := pairs[k];
    LabelGridAt(numUsers, numItems, pairs, ratings, p);
    ObservedLabel(pairs, ratings, RatingDictOf(ratings), k);
  }

  /** Every observed flat index holds a class index, whether or not cells repeat. */
  lemma FlatLabelIsAClass(numUsers: nat, numItems: nat, pairs: seq<Pair>, ratings: seq<int>, k: int)
    requires |pairs| == |ratings| && InGrid(pairs, numUsers, numItems) && 0 <= k < |pairs|
    ensures 0 <= FlatIndices(pairs, numItems)[k] < numUsers * numItems
    ensures 0 <= LabelGrid(numUsers, numItems, pairs, ratings)[FlatIndices(pairs, numItems)[k]] < |ClassValues(ratings)|
  {
    var p := pairs[k];
    LabelGridAt(numUsers, numItems, pairs, ratings, p);
    ObservedLabelIsAClass(pairs, ratings, RatingDictOf(ratings), p);
  }

  /** A flat index that no edge addresses holds the sentinel. */
  lemma FlatLabelUnobserved(numUsers: nat, numItems: nat, pairs: seq<Pair>, ratings: seq<int>, f: int)
    requires |pairs| == |ratings| && InGrid(pairs, numUsers, numItems)
    requires 0 <= f < numUsers * numItems && f !in FlatIndices(pairs, numItems)
    ensures LabelGrid(numUsers, numItems, pairs, ratings)[f] == NeutralRating
  {
    CellOfFlatIndex(f, numUsers, numItems);
    var p := Pair(f / numItems, f % numItems);
    FlatIndexMember(pairs, p, numUsers, numItems);
    LabelGridAt(numUsers, numItems, pairs, ratings, p);
    UnobservedLabel(pairs, ratings, RatingDictOf(ratings), p);
  }

  /** Builds the label grid and flattens it. */
  method BuildLabels(numUsers: nat, numItems: nat, pairs: seq<Pair>, ratings: seq<int>) returns (labels: seq<int>)
    requires |pairs| == |ratings| && InGrid(pairs, numUsers, numItems)
    ensures labels == LabelGrid(numUsers, numItems, pairs, ratings)
  {
    var dict := RatingDictOf(ratings);
    SentinelExactlyUnobserved(pairs, ratings, Pair(0, 0));
    var grid := FillLabels(numUsers, numItems, pairs, ratings, dict);
    labels := Reshape(grid);
    forall f | 0 <= f < numUsers * numItems ensures labels[f] == LabelGrid(numUsers, numItems, pairs, ratings)[f] {
      CellOfFlatIndex(f, numUsers, numItems);
    }
  }
}
