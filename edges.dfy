/** Observed edges of the bipartite rating graph: (user, item) index pairs, their
    row-major flat indices `u * num_items + v`, the transpose into parallel
    user and item arrays, and `np.where` on a dense matrix. */
module Edges {
  import opened Sequences

  /** One observed edge: a dense user index and a dense item index. */
  datatype Pair = Pair(u: int, v: int)

  /** Every pair addresses a cell of a `numUsers x numItems` grid. */
  predicate InGrid(pairs: seq<Pair>, numUsers: int, numItems: int)
  {
    forall k :: 0 <= k < |pairs| ==> 0 <= pairs[k].u < numUsers && 0 <= pairs[k].v < numItems
  }

  /** Row-major flat index of a cell, as used to address the reshaped label grid. */
  function FlatIndex(p: Pair, numItems: int): int
  {
    p.u * numItems + p.v
  }

  /** A cell of the grid has a flat index inside `[0, numUsers * numItems)`. */
  lemma FlatIndexBounds(p: Pair, numUsers: int, numItems: int)
    requires 0 <= p.u < numUsers && 0 <= p.v < numItems
    ensures 0 <= FlatIndex(p, numItems) < numUsers * numItems
  {
    assert 0 <= p.u * numItems;
    assert (p.u + 1) * numItems == p.u * numItems + numItems;
    assert numUsers * numItems - (p.u + 1) * numItems == (numUsers - p.u - 1) * numItems;
    assert 0 <= (numUsers - p.u - 1) * numItems;
  }

  /** A positive multiple of `d` is at least `d`. */
  lemma {:induction false} MultipleAtLeast(d: int, k: int)
    requires d > 0 && k >= 1
    ensures d * k >= d
  {
    if k > 1 {
      MultipleAtLeast(d, k - 1);
      assert d * k == d * (k - 1) + d;
    }
  }

  /** Division and remainder by `numItems` recover the row and the column: the
      flat index and the pair carry the same information. */
  lemma FlatIndexDivMod(p: Pair, numItems: int)
    requires 0 <= p.u && 0 <= p.v < numItems
    ensures FlatIndex(p, numItems) / numItems == p.u
    ensures FlatIndex(p, numItems) % numItems == p.v
  {
    var d := numItems;
    var f := FlatIndex(p, d);
    var q, r := f / d, f % d;
    assert f == d * q + r && 0 <= r < d;
    assert d * (q - p.u) == p.v - r by {
      assert d * (q - p.u) == d * q - d * p.u;
      assert f == d * p.u + p.v;
    }
    if q > p.u {
      MultipleAtLeast(d, q - p.u);
    } else if q < p.u {
      MultipleAtLeast(d, p.u - q);
    }
  }

  /** Multiplying by a nonnegative factor preserves order. */
  lemma {:induction false} MultiplyMonotone(d: int, a: int, b: int)
    requires d >= 0 && a <= b
    ensures d * a <= d * b
    decreases b - a
  {
    if a < b {
      MultiplyMonotone(d, a, b - 1);
      assert d * b == d * (b - 1) + d;
    }
  }

  /** Every position of the flattened grid is the flat index of exactly one cell:
      row `f / numItems`, column `f % numItems`. */
  lemma CellOfFlatIndex(f: int, numUsers: nat, numItems: nat)
    requires 0 <= f < numUsers * numItems
    ensures numItems > 0
    ensures 0 <= f / numItems < numUsers && 0 <= f % numItems < numItems
    ensures FlatIndex(Pair(f / numItems, f % numItems), numItems) == f
  {
    var q := f / numItems;
    assert f == numItems * q + f % numItems;
    if q >= numUsers {
      MultiplyMonotone(numItems, numUsers, q);
      assert false;
    }
  }

  /** Different cells of the grid have different flat indices. */
  lemma FlatIndexInjective(p: Pair, q: Pair, numItems: int)
    requires 0 <= p.u && 0 <= p.v < numItems && 0 <= q.u && 0 <= q.v < numItems
    requires FlatIndex(p, numItems) == FlatIndex(q, numItems)
    ensures p == q
  {
    FlatIndexDivMod(p, numItems);
    FlatIndexDivMod(q, numItems);
  }

  /** `np.array([u * num_items + v for u, v in pairs])` */
  function FlatIndices(pairs: seq<Pair>, numItems: int): (idx: seq<int>)
    ensures |idx| == |pairs|
    ensures forall k :: 0 <= k < |pairs| ==> idx[k] == FlatIndex(pairs[k], numItems)
  {
    seq(|pairs|, k requires 0 <= k < |pairs| => FlatIndex(pairs[k], numItems))
  }

  /** The flat indices of pairs inside the grid address the flattened grid. */
  lemma FlatIndicesInRange(pairs: seq<Pair>, numUsers: int, numItems: int)
    requires InGrid(pairs, numUsers, numItems)
    ensures IndicesBelow(FlatIndices(pairs, numItems), numUsers * numItems)
  {
    forall k | 0 <= k < |pairs| ensures 0 <= FlatIndices(pairs, numItems)[k] < numUsers * numItems {
      FlatIndexBounds(pairs[k], numUsers, numItems);
    }
  }

  /** Distinct pairs inside the grid have distinct flat indices, and conversely. */
  lemma FlatIndicesDistinct(pairs: seq<Pair>, numUsers: int, numItems: int)
    requires InGrid(pairs, numUsers, numItems)
    ensures Distinct(pairs) <==> Distinct(FlatIndices(pairs, numItems))
  {
    var idx := FlatIndices(pairs, numItems);
    if Distinct(pairs) {
      forall i, j | 0 <= i < |idx| && 0 <= j < |idx| && i != j ensures idx[i] != idx[j] {
        if idx[i] == idx[j] {
          FlatIndexInjective(pairs[i], pairs[j], numItems);
        }
      }
    }
  }

  /** The flat index of a pair inside the grid occurs among the flat indices
      exactly when the pair occurs among the pairs. */
  lemma FlatIndexMember(pairs: seq<Pair>, p: Pair, numUsers: int, numItems: int)
    requires InGrid(pairs, numUsers, numItems) && 0 <= p.u < numUsers && 0 <= p.v < numItems
    ensures FlatIndex(p, numItems) in FlatIndices(pairs, numItems) <==> p in pairs
  {
    var idx := FlatIndices(pairs, numItems);
    if FlatIndex(p, numItems) in idx {
      var k :| 0 <= k < |idx| && idx[k] == FlatIndex(p, numItems);
      FlatIndexInjective(p, pairs[k], numItems);
    }
    if p in pairs {
      var k :| 0 <= k < |pairs| && pairs[k] == p;
      assert idx[k] == FlatIndex(p, numItems);
    }
  }

  /** The user column of `pairs.transpose()`. */
  function Users(pairs: seq<Pair>): (us: seq<int>)
    ensures |us| == |pairs| && forall k :: 0 <= k < |pairs| ==> us[k] == pairs[k].u
  {
    seq(|pairs|, k requires 0 <= k < |pairs| => pairs[k].u)
  }

  /** The item column of `pairs.transpose()`. */
  function Items(pairs: seq<Pair>): (vs: seq<int>)
    ensures |vs| == |pairs| && forall k :: 0 <= k < |pairs| ==> vs[k] == pairs[k].v
  {
    seq(|pairs|, k requires 0 <= k < |pairs| => pairs[k].v)
  }

  /** `np.array([[u, v] for u, v in zip(us, vs)])`, the inverse of the transpose. */
  function Zip(us: seq<int>, vs: seq<int>): (pairs: seq<Pair>)
    requires |us| == |vs|
    ensures |pairs| == |us|
    ensures forall k :: 0 <= k < |us| ==> pairs[k] == Pair(us[k], vs[k])
  {
    seq(|us|, k requires 0 <= k < |us| => Pair(us[k], vs[k]))
  }

  /** Transposing and zipping back are inverse to each other. */
  lemma ZipTranspose(pairs: seq<Pair>)
    ensures Zip(Users(pairs), Items(pairs)) == pairs
  {
  }

  lemma TransposeZip(us: seq<int>, vs: seq<int>)
    requires |us| == |vs|
    ensures Users(Zip(us, vs)) == us && Items(Zip(us, vs)) == vs
  {
  }

  /** Transposing commutes with concatenation (`np.hstack` of the columns). */
  lemma TransposeConcat(a: seq<Pair>, b: seq<Pair>)
    ensures Users(a + b) == Users(a) + Users(b)
    ensures Items(a + b) == Items(a) + Items(b)
  {
  }

  /** Row-major order of cells: by row, then by column. */
  predicate RowMajorBefore(p: Pair, q: Pair)
  {
    p.u < q.u || (p.u == q.u && p.v < q.v)
  }

  predicate RowMajorSorted(w: seq<Pair>)
  {
    forall i, j :: 0 <= i < j < |w| ==> RowMajorBefore(w[i], w[j])
  }

  /** `g` is a `rows x cols` matrix. */
  predicate IsMatrix(g: seq<seq<int>>, rows: int, cols: int)
  {
    |g| == rows && forall r :: 0 <= r < |g| ==> |g[r]| == cols
  }

  /** The nonzero cells of one row `r`, left to right; `row` is a prefix of row `r`. */
  function RowNonzero(row: seq<int>, r: int): (w: seq<Pair>)
    ensures forall p :: p in w <==> p.u == r && 0 <= p.v < |row| && row[p.v] != 0
    ensures forall i, j :: 0 <= i < j < |w| ==> w[i].u == r && w[i].v < w[j].v
    ensures forall i :: 0 <= i < |w| ==> w[i].u == r
  {
    if row == [] then []
    else
      var c := |row| - 1;
      var w := RowNonzero(row[..c], r);
      assert forall p :: p in w ==> p.v < c;
      w + (if row[c] != 0 then [Pair(r, c)] else [])
  }

  /** `np.where(g)`: the nonzero cells of the first `|g|` rows in row-major order. */
  function Where(g: seq<seq<int>>): (w: seq<Pair>)
    ensures forall p :: p in w <==> 0 <= p.u < |g| && 0 <= p.v < |g[p.u]| && g[p.u][p.v] != 0
    ensures RowMajorSorted(w)
  {
    if g == [] then []
    else
      var r := |g| - 1;
      var above := Where(g[..r]);
      var last := RowNonzero(g[r], r);
      assert forall p :: p in above ==> p.u < r;
      assert forall i, j :: 0 <= i < |above| && 0 <= j < |last| ==> RowMajorBefore(above[i], last[j]) by {
        forall i, j | 0 <= i < |above| && 0 <= j < |last| ensures RowMajorBefore(above[i], last[j]) {
          var p := above[i];
          assert p in above;
        }
      }
      above + last
  }

  /** A row-major sorted sequence of cells has no repeated cell. */
  lemma RowMajorSortedDistinct(w: seq<Pair>)
    requires RowMajorSorted(w)
    ensures Distinct(w)
  {
    forall i, j | 0 <= i < |w| && 0 <= j < |w| && i != j ensures w[i] != w[j] {
      if i < j { assert RowMajorBefore(w[i], w[j]); } else { assert RowMajorBefore(w[j], w[i]); }
    }
  }

  /** `g[np.where(g)]`: the entries at the given cells, in the same order. */
  function ValuesAt(g: seq<seq<int>>, w: seq<Pair>): (vals: seq<int>)
    requires forall k :: 0 <= k < |w| ==> 0 <= w[k].u < |g| && 0 <= w[k].v < |g[w[k].u]|
    ensures |vals| == |w|
    ensures forall k :: 0 <= k < |w| ==> vals[k] == g[w[k].u][w[k].v]
  {
    seq(|w|, k requires 0 <= k < |w| => g[w[k].u][w[k].v])
  }

  /** The cells `np.where` returns are valid cells of the matrix, and `g[np.where(g)]` is nonzero. */
  lemma WhereInGrid(g: seq<seq<int>>, rows: int, cols: int)
    requires IsMatrix(g, rows, cols)
    ensures InGrid(Where(g), rows, cols)
    ensures Distinct(Where(g))
    ensures forall k :: 0 <= k < |Where(g)| ==> ValuesAt(g, Where(g))[k] != 0
  {
    var w := Where(g);
    forall k | 0 <= k < |w| ensures 0 <= w[k].u < rows && 0 <= w[k].v < cols {
      var p := w[k];
      assert p in w;
    }
    forall k | 0 <= k < |w| ensures ValuesAt(g, w)[k] != 0 {
      var p := w[k];
      assert p in w;
    }
    RowMajorSortedDistinct(w);
  }
}
