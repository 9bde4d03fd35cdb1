/** Assembly of the user and item feature blocks into one feature space:
    user features are padded on the right with zero columns for the item
    features, item features on the left with zero columns for the user
    features, so that the item rows can be stacked under the user rows. */
module FeatureBlocks {

  /** `m` has `rows` rows of `cols` entries each. */
  predicate IsShape(m: seq<seq<real>>, rows: int, cols: int)
  {
    |m| == rows && forall i :: 0 <= i < |m| ==> |m[i]| == cols
  }

  function Zeros(n: nat): (z: seq<real>)
    ensures |z| == n && forall j :: 0 <= j < n ==> z[j] == 0.0
  {
    seq(n, j => 0.0)
  }

  /** `sp.hstack([u_features, zeros(nu, fv)])`. */
  function PadUser(u: seq<seq<real>>, fu: nat, fv: nat): (p: seq<seq<real>>)
    requires IsShape(u, |u|, fu)
    ensures IsShape(p, |u|, fu + fv)
    ensures forall i :: 0 <= i < |u| ==> p[i][..fu] == u[i] && p[i][fu..] == Zeros(fv)
  {
    var p := seq(|u|, i requires 0 <= i < |u| => u[i] + Zeros(fv));
    assert forall i :: 0 <= i < |u| ==> p[i] == u[i] + Zeros(fv);
    p
  }

  /** `sp.hstack([zeros(nv, fu), v_features])`. */
  function PadItem(v: seq<seq<real>>, fu: nat, fv: nat): (p: seq<seq<real>>)
    requires IsShape(v, |v|, fv)
    ensures IsShape(p, |v|, fu + fv)
    ensures forall i :: 0 <= i < |v| ==> p[i][..fu] == Zeros(fu) && p[i][fu..] == v[i]
  {
    var p := seq(|v|, i requires 0 <= i < |v| => Zeros(fu) + v[i]);
    assert forall i :: 0 <= i < |v| ==> p[i] == Zeros(fu) + v[i];
    p
  }

  /** Both padded blocks, with `fu` and `fv` the column counts of the user and
      item feature matrices. */
  function PreprocessUserItemFeatures(u: seq<seq<real>>, v: seq<seq<real>>, fu: nat, fv: nat): (r: (seq<seq<real>>, seq<seq<real>>))
    requires IsShape(u, |u|, fu) && IsShape(v, |v|, fv)
    ensures IsShape(r.0, |u|, fu + fv) && IsShape(r.1, |v|, fu + fv)
  {
    (PadUser(u, fu, fv), PadItem(v, fu, fv))
  }

  /** In the stacked feature space users and items never share a column: a
      column where some padded user row is nonzero is zero in every padded
      item row. Dropping the padding gives the original blocks back. */
  lemma PaddedBlocksSeparate(u: seq<seq<real>>, v: seq<seq<real>>, fu: nat, fv: nat, a: int, b: int, j: int)
    requires IsShape(u, |u|, fu) && IsShape(v, |v|, fv)
    requires 0 <= a < |u| && 0 <= b < |v| && 0 <= j < fu + fv
    ensures var r := PreprocessUserItemFeatures(u, v, fu, fv);
      r.0[a][j] == 0.0 || r.1[b][j] == 0.0
    ensures var r := PreprocessUserItemFeatures(u, v, fu, fv);
      r.0[a][..fu] == u[a] && r.1[b][fu..] == v[b]
    ensures var r := PreprocessUserItemFeatures(u, v, fu, fv);
      j < fu ==> r.0[a][j] == u[a][j]
    ensures var r := PreprocessUserItemFeatures(u, v, fu, fv);
      fu <= j ==> r.1[b][j] == v[b][j - fu]
  {
    var pu, pv := PadUser(u, fu, fv), PadItem(v, fu, fv);
    if j < fu {
      assert pv[b][j] == pv[b][..fu][j];
      assert pu[a][j] == pu[a][..fu][j];
    } else {
      assert pu[a][j] == pu[a][fu..][j - fu];
      assert pv[b][j] == pv[b][fu..][j - fu];
    }
  }

  /** `np.eye(n)`: the identity features used when a dataset ships no side
      information for one side. */
  function Eye(n: nat): (m: seq<seq<real>>)
    ensures IsShape(m, n, n)
  {
    seq(n, i => seq(n, j => if i == j then 1.0 else 0.0))
  }

  /** Every identity row has its single 1 on the diagonal: row `i` is the
      one-hot indicator of node `i`. */
  lemma EyeOneHot(n: nat, i: int, j: int)
    requires 0 <= i < n && 0 <= j < n
    ensures Eye(n)[i][j] == 1.0 <==> i == j
    ensures Eye(n)[i][j] == 0.0 <==> i != j
  {
  }
}
