/** Sequence vocabulary shared by the split pipeline: index ranges, NumPy-style
    gathering (`a[idx]`), permutations of `range(n)`, Python slicing with a
    negative stop, distinctness and boolean-mask counting. */
module Sequences {

  /** The outcome of an operation that can raise: a value, or the error raised. */
  datatype Result<T> = Success(value: T) | Failure(error: string)

  /** `range(n)` as a sequence. */
  function Range(n: nat): (r: seq<int>)
    ensures |r| == n
    ensures forall i :: 0 <= i < n ==> r[i] == i
  {
    seq(n, i => i)
  }

  /** `perm` is a rearrangement of `range(n)`, which is what an in-place
      shuffle of `range(n)` leaves behind. */
  predicate IsPermutation(perm: seq<int>, n: nat)
  {
    multiset(perm) == multiset(Range(n))
  }

  /** No element occurs twice. */
  predicate Distinct<T(==)>(s: seq<T>)
  {
    forall i, j :: 0 <= i < |s| && 0 <= j < |s| && i != j ==> s[i] != s[j]
  }

  /** No element of `s` occurs in `t`. */
  predicate Disjoint<T(==)>(s: seq<T>, t: seq<T>)
  {
    forall i, j :: 0 <= i < |s| && 0 <= j < |t| ==> s[i] != t[j]
  }

  /** Every entry of `idx` is a valid position of a sequence of length `n`. */
  predicate IndicesBelow(idx: seq<int>, n: int)
  {
    forall k :: 0 <= k < |idx| ==> 0 <= idx[k] < n
  }

  /** Every entry of `a` is also an entry of `b`. */
  predicate DrawnFrom<T(==)>(a: seq<T>, b: seq<T>)
  {
    forall k :: 0 <= k < |a| ==> a[k] in b
  }

  /** Each of three parts is drawn from their concatenation. */
  lemma PartsOfConcat<T>(a: seq<T>, b: seq<T>, c: seq<T>)
    ensures DrawnFrom(a, a + b + c) && DrawnFrom(b, a + b + c) && DrawnFrom(c, a + b + c)
  {
    forall k | 0 <= k < |a| ensures a[k] in a + b + c { assert (a + b + c)[k] == a[k]; }
    forall k | 0 <= k < |b| ensures b[k] in a + b + c { assert (a + b + c)[|a| + k] == b[k]; }
    forall k | 0 <= k < |c| ensures c[k] in a + b + c { assert (a + b + c)[|a| + |b| + k] == c[k]; }
  }

  /** Parts whose multiset union is that of `s` are drawn from `s`. */
  lemma PartsOfMultiset<T>(a: seq<T>, b: seq<T>, c: seq<T>, s: seq<T>)
    requires multiset(a + b + c) == multiset(s)
    ensures DrawnFrom(a, s) && DrawnFrom(b, s) && DrawnFrom(c, s)
  {
    PartsOfConcat(a, b, c);
    forall x | x in a + b + c ensures x in s {
      assert x in multiset(a + b + c);
    }
  }

  /** Entries drawn from positions below `n` are positions below `n`. */
  lemma DrawnBelow(a: seq<int>, b: seq<int>, n: int)
    requires DrawnFrom(a, b) && IndicesBelow(b, n)
    ensures IndicesBelow(a, n)
  {
    forall k | 0 <= k < |a| ensures 0 <= a[k] < n {
      var j :| 0 <= j < |b| && b[j] == a[k];
    }
  }

  /** Entries drawn from a prefix are drawn from the whole. */
  lemma DrawnFromPrefix<T>(a: seq<T>, b: seq<T>, c: seq<T>)
    requires DrawnFrom(a, b)
    ensures DrawnFrom(a, b + c)
  {
    forall k | 0 <= k < |a| ensures a[k] in b + c {
      var j :| 0 <= j < |b| && b[j] == a[k];
      assert (b + c)[j] == a[k];
    }
  }

  /** Drawing from drawn entries stays drawn. */
  lemma DrawnFromConcat<T>(a: seq<T>, b: seq<T>, s: seq<T>)
    requires DrawnFrom(a, s) && DrawnFrom(b, s)
    ensures DrawnFrom(a + b, s)
  {
    forall k | 0 <= k < |a + b| ensures (a + b)[k] in s {
      if k >= |a| { assert (a + b)[k] == b[k - |a|]; }
    }
  }

  /** NumPy fancy indexing `s[idx]`: the entries of `s` at the positions `idx`, in that order. */
  function Gather<T>(s: seq<T>, idx: seq<int>): (r: seq<T>)
    requires IndicesBelow(idx, |s|)
    ensures |r| == |idx|
    ensures forall k :: 0 <= k < |idx| ==> r[k] == s[idx[k]]
  {
    seq(|idx|, k requires 0 <= k < |idx| => s[idx[k]])
  }

  /** Python's normalisation of a slice bound against a sequence of length `n`. */
  function SliceBound(i: int, n: nat): (b: nat)
    ensures b <= n
  {
    if i < 0 then (if i + n < 0 then 0 else i + n) else if i > n then n else i
  }

  /** Python slicing `s[lo:hi]`, where a negative bound counts from the end. */
  function PySlice<T>(s: seq<T>, lo: int, hi: int): (r: seq<T>)
    ensures 0 <= lo <= hi <= |s| ==> r == s[lo..hi]
    ensures |r| <= |s|
  {
    var a, b := SliceBound(lo, |s|), SliceBound(hi, |s|);
    if a <= b then s[a..b] else []
  }

  /** `set(s)`: the elements of `s`. */
  function SetOf<T(==)>(s: seq<T>): set<T>
  {
    if s == [] then {} else SetOf(s[..|s| - 1]) + {s[|s| - 1]}
  }

  lemma {:induction false} SetOfHas<T>(s: seq<T>, k: int)
    requires 0 <= k < |s|
    ensures s[k] in SetOf(s)
  {
    if k < |s| - 1 {
      SetOfHas(s[..|s| - 1], k);
    }
  }

  /** `order` lists the elements of the set `s`, each once: the order in
      which iterating over a Python set yields them. */
  predicate IsSetOrder<T(==)>(order: seq<T>, s: set<T>)
  {
    Distinct(order) && (forall x :: x in s ==> x in order) && |order| == |s|
  }

  /** Number of `true` entries of a boolean mask. */
  function CountTrue(mask: seq<bool>): (c: nat)
    ensures c <= |mask|
  {
    if mask == [] then 0 else CountTrue(mask[..|mask| - 1]) + (if mask[|mask| - 1] then 1 else 0)
  }

  /** The positions where `mask` equals `keep`, in order: what `s[mask]`
      (`keep` true) or `s[~mask]` (`keep` false) gathers. */
  function MaskIndices(mask: seq<bool>, keep: bool): (idx: seq<int>)
    ensures IndicesBelow(idx, |mask|)
    ensures |idx| == if keep then CountTrue(mask) else |mask| - CountTrue(mask)
    ensures forall k :: 0 <= k < |idx| ==> mask[idx[k]] == keep
    ensures forall i :: 0 <= i < |mask| && mask[i] == keep ==> i in idx
  {
    if mask == [] then []
    else
      var n := |mask| - 1;
      var rest := MaskIndices(mask[..n], keep);
      assert forall i :: 0 <= i < n ==> mask[..n][i] == mask[i];
      rest + if mask[n] == keep then [n] else []
  }

  /** `np.concatenate([s[~mask], s[mask]])` reorders `range(len(mask))`: the
      unmasked positions first, then the masked ones. */
  function MaskOrder(mask: seq<bool>): seq<int>
  {
    MaskIndices(mask, false) + MaskIndices(mask, true)
  }

  /** Every position occurs exactly once in the mask order. */
  lemma {:induction false} MaskOrderIsPermutation(mask: seq<bool>)
    ensures IsPermutation(MaskOrder(mask), |mask|)
  {
    if mask != [] {
      var n := |mask| - 1;
      MaskOrderIsPermutation(mask[..n]);
      var a, b := MaskIndices(mask[..n], false), MaskIndices(mask[..n], true);
      assert multiset(a + b) == multiset(Range(n));
      var tail := if mask[n] then multiset(b) + multiset{n} else multiset(b);
      var head := if mask[n] then multiset(a) else multiset(a) + multiset{n};
      assert multiset(MaskIndices(mask, true)) == tail;
      assert multiset(MaskIndices(mask, false)) == head;
      RangeSnoc(n);
      assert multiset(Range(n + 1)) == multiset(Range(n)) + multiset{n};
    }
  }

  lemma PrefixSnoc<T>(s: seq<T>, n: int)
    requires 0 <= n < |s|
    ensures s[..n + 1] == s[..n] + [s[n]]
  {
  }

  lemma RangeSnoc(n: nat)
    ensures Range(n + 1) == Range(n) + [n]
  {
  }

  /** Each value occurs at most once in `range(n)`; the values are exactly `0 <= x < n`. */
  lemma {:induction false} RangeMultiplicity(n: nat, x: int)
    ensures multiset(Range(n))[x] == if 0 <= x < n then 1 else 0
  {
    if n > 0 {
      RangeSnoc(n - 1);
      RangeMultiplicity(n - 1, x);
    }
  }

  /** A permutation of `range(n)` has length `n` and only entries in `[0, n)`. */
  lemma PermutationBounds(perm: seq<int>, n: nat)
    requires IsPermutation(perm, n)
    ensures |perm| == n
    ensures IndicesBelow(perm, n)
  {
    assert |multiset(perm)| == |perm|;
    forall k | 0 <= k < |perm| ensures 0 <= perm[k] < n {
      assert perm[k] in multiset(perm);
      RangeMultiplicity(n, perm[k]);
    }
  }

  /** Two positions holding the same value give that value multiplicity at least two. */
  lemma RepeatedValue<T>(s: seq<T>, i: int, j: int)
    requires 0 <= i < j < |s| && s[i] == s[j]
    ensures multiset(s)[s[i]] >= 2
  {
    assert s == s[..i] + [s[i]] + s[i + 1..j] + [s[j]] + s[j + 1..];
  }

  /** A permutation of `range(n)` never repeats an entry. */
  lemma PermutationDistinct(perm: seq<int>, n: nat)
    requires IsPermutation(perm, n)
    ensures Distinct(perm)
  {
    forall i, j | 0 <= i < |perm| && 0 <= j < |perm| && i != j ensures perm[i] != perm[j] {
      if perm[i] == perm[j] {
        if i < j { RepeatedValue(perm, i, j); } else { RepeatedValue(perm, j, i); }
        RangeMultiplicity(n, perm[i]);
        assert false;
      }
    }
  }

  /** Removing the largest entry `n` from a permutation of `range(n + 1)`
      leaves a permutation of `range(n)`. */
  lemma RemoveLargest(perm: seq<int>, n: nat, j: int)
    requires IsPermutation(perm, n + 1) && 0 <= j < |perm| && perm[j] == n
    ensures IsPermutation(perm[..j] + perm[j + 1..], n)
  {
    var rest := perm[..j] + perm[j + 1..];
    assert perm == perm[..j] + [n] + perm[j + 1..];
    assert multiset(perm) == multiset(perm[..j]) + multiset{n} + multiset(perm[j + 1..]);
    assert multiset(rest) == multiset(perm) - multiset{n};
    RangeSnoc(n);
    assert multiset(Range(n + 1)) == multiset(Range(n)) + multiset{n};
  }

  /** Gathering through `a + [n] + b` splits around the entry `s[n]`. */
  lemma GatherAround<T>(s: seq<T>, a: seq<int>, b: seq<int>, n: nat)
    requires n + 1 == |s| && IndicesBelow(a, n) && IndicesBelow(b, n)
    ensures IndicesBelow(a + [n] + b, |s|) && IndicesBelow(a + b, n)
    ensures multiset(Gather(s, a + [n] + b)) == multiset(Gather(s[..n], a + b)) + multiset{s[n]}
  {
    var g := Gather(s, a + [n] + b);
    assert g == Gather(s[..n], a) + [s[n]] + Gather(s[..n], b);
    assert Gather(s[..n], a + b) == Gather(s[..n], a) + Gather(s[..n], b);
  }

  lemma MultisetSnoc<T>(s: seq<T>)
    requires |s| > 0
    ensures multiset(s) == multiset(s[..|s| - 1]) + multiset{s[|s| - 1]}
  {
    assert s == s[..|s| - 1] + [s[|s| - 1]];
  }

  /** Gathering through a permutation rearranges a sequence without losing or
      duplicating anything: the multiset of entries is unchanged. */
  lemma {:induction false} GatherPermutation<T>(s: seq<T>, perm: seq<int>)
    requires IsPermutation(perm, |s|)
    ensures IndicesBelow(perm, |s|)
    ensures multiset(Gather(s, perm)) == multiset(s)
  {
    PermutationBounds(perm, |s|);
    if |s| > 0 {
      var n := |s| - 1;
      var j := FindLargest(perm, n);
      var a, b := perm[..j], perm[j + 1..];
      RemoveLargest(perm, n, j);
      PermutationBounds(a + b, n);
      BelowBothSides(a, b, n);
      GatherPermutation(s[..n], a + b);
      assert perm == a + [n] + b;
      GatherAround(s, a, b, n);
      MultisetSnoc(s);
    }
  }

  /** A permutation of `range(n + 1)` holds `n` somewhere. */
  lemma FindLargest(perm: seq<int>, n: nat) returns (j: int)
    requires IsPermutation(perm, n + 1)
    ensures 0 <= j < |perm| && perm[j] == n
  {
    RangeMultiplicity(n + 1, n);
    assert n in multiset(perm);
    j :| 0 <= j < |perm| && perm[j] == n;
  }

  lemma BelowBothSides(a: seq<int>, b: seq<int>, n: int)
    requires IndicesBelow(a + b, n)
    ensures IndicesBelow(a, n) && IndicesBelow(b, n)
  {
    forall k | 0 <= k < |a| ensures 0 <= a[k] < n { assert a[k] == (a + b)[k]; }
    forall k | 0 <= k < |b| ensures 0 <= b[k] < n { assert b[k] == (a + b)[|a| + k]; }
  }

  /** Gathering distinct entries through distinct positions gives distinct entries. */
  lemma GatherDistinct<T>(s: seq<T>, idx: seq<int>)
    requires IndicesBelow(idx, |s|) && Distinct(s) && Distinct(idx)
    ensures Distinct(Gather(s, idx))
  {
  }

  /** Slices of a distinct sequence at different positions share no element. */
  lemma DistinctSlices<T>(s: seq<T>, a: nat, b: nat, c: nat, d: nat)
    requires Distinct(s) && a <= b <= c <= d <= |s|
    ensures Disjoint(s[a..b], s[c..d])
  {
    forall i, j | 0 <= i < b - a && 0 <= j < d - c ensures s[a..b][i] != s[c..d][j] {
      assert s[a..b][i] == s[a + i] && s[c..d][j] == s[c + j];
    }
  }

  /** A slice of a distinct sequence is distinct. */
  lemma DistinctSlice<T>(s: seq<T>, a: nat, b: nat)
    requires Distinct(s) && a <= b <= |s|
    ensures Distinct(s[a..b])
  {
    forall i, j | 0 <= i < b - a && 0 <= j < b - a && i != j ensures s[a..b][i] != s[a..b][j] {
      assert s[a..b][i] == s[a + i] && s[a..b][j] == s[a + j];
    }
  }

  /** Every entry of a gather comes from the gathered sequence. */
  lemma GatherMembers<T>(s: seq<T>, idx: seq<int>)
    requires IndicesBelow(idx, |s|)
    ensures forall k :: 0 <= k < |idx| ==> Gather(s, idx)[k] in s
  {
  }

  /** Distinct sequences with no common element concatenate to a distinct sequence. */
  lemma DistinctConcat<T>(s: seq<T>, t: seq<T>)
    requires Distinct(s) && Distinct(t) && Disjoint(s, t)
    ensures Distinct(s + t)
  {
    forall i, j | 0 <= i < |s + t| && 0 <= j < |s + t| && i != j ensures (s + t)[i] != (s + t)[j] {
      if i < |s| && j >= |s| {
        assert (s + t)[j] == t[j - |s|];
      } else if i >= |s| && j < |s| {
        assert (s + t)[i] == t[i - |s|];
      }
    }
  }
}
