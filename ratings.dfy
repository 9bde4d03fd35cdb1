/** Rating classes: the sorted distinct rating values (`np.sort(np.unique(ratings))`),
    the rating-to-class dictionary built by enumerating them, and the sentinel
    that marks an unobserved cell. Ratings are modelled as integers: the
    pipeline only sorts them, removes duplicates and uses them as keys. */
module Ratings {

  /** The label of a (user, item) cell that carries no rating. */
  const NeutralRating: int := -1

  predicate StrictlyIncreasing(s: seq<int>)
  {
    forall i, j :: 0 <= i < j < |s| ==> s[i] < s[j]
  }

  /** Inserts `x` into a strictly increasing sequence, keeping it strictly
      increasing; a value already present is not inserted again. */
  function InsertSorted(t: seq<int>, x: int): (r: seq<int>)
    requires StrictlyIncreasing(t)
    ensures StrictlyIncreasing(r)
    ensures forall y :: y in r <==> y in t || y == x
  {
    if t == [] then [x]
    else if x < t[0] then [x] + t
    else if x == t[0] then t
    else
      var rest := InsertSorted(t[1..], x);
      assert forall y :: y in rest ==> t[0] < y by {
        forall y | y in rest ensures t[0] < y {
          if y in t[1..] {
            var k :| 0 <= k < |t[1..]| && t[1..][k] == y;
            assert t[k + 1] == y;
          }
        }
      }
      assert forall i :: 0 < i < |[t[0]] + rest| ==> ([t[0]] + rest)[i] in rest;
      [t[0]] + rest
  }

  /** `np.sort(np.unique(s))`: the distinct values of `s` in increasing order. */
  function SortedUnique(s: seq<int>): (r: seq<int>)
    ensures StrictlyIncreasing(r)
    ensures forall y :: y in r <==> y in s
  {
    if s == [] then []
    else
      var r := InsertSorted(SortedUnique(s[..|s| - 1]), s[|s| - 1]);
      assert forall y :: y in s <==> y in s[..|s| - 1] || y == s[|s| - 1] by {
        assert s == s[..|s| - 1] + [s[|s| - 1]];
      }
      r
  }

  /** The class values returned by every split: the sorted distinct ratings. */
  function ClassValues(ratings: seq<int>): (classes: seq<int>)
    ensures StrictlyIncreasing(classes)
    ensures forall r :: r in classes <==> r in ratings
  {
    SortedUnique(ratings)
  }

  /** `{r: i for i, r in enumerate(classes)}`: every class value is mapped back
      to its position, so the dictionary inverts indexing into `classes`. */
  function RatingDict(classes: seq<int>): (d: map<int, int>)
    requires StrictlyIncreasing(classes)
    ensures forall r :: r in d <==> r in classes
    ensures forall r :: r in d ==> 0 <= d[r] < |classes| && classes[d[r]] == r
    ensures forall i :: 0 <= i < |classes| ==> classes[i] in d && d[classes[i]] == i
  {
    map i | 0 <= i < |classes| :: classes[i] := i
  }

  /** The dictionary the split functions build from the observed ratings. */
  function RatingDictOf(ratings: seq<int>): (d: map<int, int>)
    ensures forall r :: r in d <==> r in ratings
    ensures forall r :: r in d ==> 0 <= d[r] < |ClassValues(ratings)| && ClassValues(ratings)[d[r]] == r
  {
    RatingDict(ClassValues(ratings))
  }

  lemma SameMembersBothEmpty(a: seq<int>, b: seq<int>)
    requires forall y :: y in a <==> y in b
    ensures a == [] <==> b == []
  {
    if a != [] { var z := a[0]; assert z in a; }
    if b != [] { var z := b[0]; assert z in b; }
  }

  /** Two strictly increasing sequences with the same elements are equal, so
      `SortedUnique` is the only sorted, duplicate-free listing of the ratings. */
  lemma {:induction false} SortedListingUnique(a: seq<int>, b: seq<int>)
    requires StrictlyIncreasing(a) && StrictlyIncreasing(b)
    requires forall y :: y in a <==> y in b
    ensures a == b
  {
    SameMembersBothEmpty(a, b);
    if a != [] {
      assert a[0] == b[0] by {
        assert a[0] in b && b[0] in a;
        var i :| 0 <= i < |b| && b[i] == a[0];
        var j :| 0 <= j < |a| && a[j] == b[0];
        assert b[0] <= b[i] && a[0] <= a[j];
      }
      forall y ensures y in a[1..] <==> y in b[1..] {
        if y in a[1..] {
          var k :| 0 <= k < |a[1..]| && a[1..][k] == y;
          assert a[k + 1] == y && a[0] < y;
          assert y in b;
          var m :| 0 <= m < |b| && b[m] == y;
          assert m != 0;
          assert b[1..][m - 1] == y;
        }
        if y in b[1..] {
          var k :| 0 <= k < |b[1..]| && b[1..][k] == y;
          assert b[k + 1] == y && b[0] < y;
          assert y in a;
          var m :| 0 <= m < |a| && a[m] == y;
          assert m != 0;
          assert a[1..][m - 1] == y;
        }
      }
      SortedListingUnique(a[1..], b[1..]);
      assert a == [a[0]] + a[1..] && b == [b[0]] + b[1..];
    }
  }

  /** Class indices follow the order of the ratings: a lower rating gets a lower class. */
  lemma ClassIndexMonotone(ratings: seq<int>, r1: int, r2: int)
    requires r1 in ratings && r2 in ratings && r1 < r2
    ensures r1 in RatingDictOf(ratings) && r2 in RatingDictOf(ratings)
    ensures RatingDictOf(ratings)[r1] < RatingDictOf(ratings)[r2]
  {
  }

  /** The sentinel is never a class index: every class index is at least 0. */
  lemma SentinelIsNoClass(ratings: seq<int>)
    ensures NeutralRating !in RatingDictOf(ratings).Values
  {
  }
}
