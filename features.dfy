/** Side-information matrices are built by zero-initialising a
    `rows x columns` matrix and then performing indexed assignments
    `features[row, col] = val` while walking the rows of a metadata file.
    This module describes such a sequence of assignments, the value every cell
    ends up with (the last assignment to it, or 0), the method that performs
    them on an array, and the column dictionaries built with `enumerate`. */
module FeatureWrites {
  import opened Sequences

  /** One indexed assignment `features[row, col] = val`. */
  datatype Write = Write(row: int, col: int, val: real)

  predicate Hits(w: Write, i: int, j: int)
  {
    w.row == i && w.col == j
  }

  predicate HitsSome(ws: seq<Write>, i: int, j: int)
  {
    exists k :: 0 <= k < |ws| && Hits(ws[k], i, j)
  }

  /** The value of cell (i, j) of a zero-initialised matrix after the
      assignments `ws` in order. */
  function CellAfter(ws: seq<Write>, i: int, j: int): real
  {
    if ws == [] then 0.0
    else if Hits(ws[|ws| - 1], i, j) then ws[|ws| - 1].val
    else CellAfter(ws[..|ws| - 1], i, j)
  }

  /** A cell holds the value of the last assignment to it, or 0 when it was
      never assigned. */
  lemma {:induction false} LastWriteWins(ws: seq<Write>, i: int, j: int)
    ensures !HitsSome(ws, i, j) ==> CellAfter(ws, i, j) == 0.0
    ensures HitsSome(ws, i, j) ==>
      exists k :: 0 <= k < |ws| && Hits(ws[k], i, j) && CellAfter(ws, i, j) == ws[k].val &&
        forall m :: k < m < |ws| ==> !Hits(ws[m], i, j)
  {
    if ws != [] {
      var n := |ws| - 1;
      if !Hits(ws[n], i, j) {
        LastWriteWins(ws[..n], i, j);
        var x := CellAfter(ws[..n], i, j);
        assert HitsSome(ws, i, j) ==> HitsSome(ws[..n], i, j) by {
          if HitsSome(ws, i, j) {
            var k :| 0 <= k < |ws| && Hits(ws[k], i, j);
            assert k < n && ws[..n][k] == ws[k];
          }
        }
        if HitsSome(ws[..n], i, j) {
          var k :| 0 <= k < n && Hits(ws[..n][k], i, j) && x == ws[..n][k].val &&
            forall m :: k < m < n ==> !Hits(ws[..n][m], i, j);
          assert ws[..n][k] == ws[k];
          forall m | k < m < |ws| ensures !Hits(ws[m], i, j) {
            if m < n { assert ws[..n][m] == ws[m]; }
          }
        }
      }
    }
  }

  /** When every assignment to a cell writes 1 (a one-hot or multi-hot
      indicator), the cell is 1 exactly when it was assigned, and 0 otherwise. */
  lemma IndicatorCell(ws: seq<Write>, i: int, j: int)
    requires forall k :: 0 <= k < |ws| && Hits(ws[k], i, j) ==> ws[k].val == 1.0
    ensures CellAfter(ws, i, j) == if HitsSome(ws, i, j) then 1.0 else 0.0
  {
    LastWriteWins(ws, i, j);
  }

  lemma CellAfterSnoc(ws: seq<Write>, w: Write, i: int, j: int)
    ensures CellAfter(ws + [w], i, j) == if Hits(w, i, j) then w.val else CellAfter(ws, i, j)
  {
    assert (ws + [w])[..|ws|] == ws;
  }

  /** Two assignments in a row: the cell holds the last one that hits it. */
  lemma CellAfterTwo(a: Write, b: Write, i: int, j: int)
    ensures CellAfter([a, b], i, j) == if Hits(b, i, j) then b.val else if Hits(a, i, j) then a.val else 0.0
  {
    assert [a, b] == [a] + [b] && [a] == [] + [a];
    CellAfterSnoc([a], b, i, j);
    CellAfterSnoc([], a, i, j);
  }

  /** Three assignments in a row: the cell holds the last one that hits it. */
  lemma CellAfterThree(a: Write, b: Write, c: Write, i: int, j: int)
    ensures CellAfter([a, b, c], i, j) ==
      if Hits(c, i, j) then c.val else if Hits(b, i, j) then b.val else if Hits(a, i, j) then a.val else 0.0
  {
    assert [a, b, c] == [a, b] + [c] && [a, b] == [a] + [b] && [a] == [] + [a];
    CellAfterSnoc([a, b], c, i, j);
    CellAfterSnoc([a], b, i, j);
    CellAfterSnoc([], a, i, j);
  }

  /** Later assignments to a cell override earlier ones; assignments that never
      touch the cell leave it as it was. */
  lemma {:induction false} CellAfterConcat(a: seq<Write>, b: seq<Write>, i: int, j: int)
    ensures CellAfter(a + b, i, j) == if HitsSome(b, i, j) then CellAfter(b, i, j) else CellAfter(a, i, j)
  {
    if b == [] {
      assert a + b == a;
    } else {
      var n := |b| - 1;
      assert a + b == (a + b[..n]) + [b[n]];
      CellAfterSnoc(a + b[..n], b[n], i, j);
      CellAfterSnoc(b[..n], b[n], i, j);
      assert b == b[..n] + [b[n]];
      if !Hits(b[n], i, j) {
        CellAfterConcat(a, b[..n], i, j);
        assert HitsSome(b, i, j) <==> HitsSome(b[..n], i, j) by {
          if HitsSome(b, i, j) {
            var k :| 0 <= k < |b| && Hits(b[k], i, j);
            assert b[..n][k] == b[k];
          }
          if HitsSome(b[..n], i, j) {
            var k :| 0 <= k < n && Hits(b[..n][k], i, j);
            assert b[k] == b[..n][k];
          }
        }
      }
    }
  }

  /** The assignments performed while walking the rows of a file, one list per row, in file order. */
  function Flatten(wss: seq<seq<Write>>): seq<Write>
  {
    if wss == [] then [] else Flatten(wss[..|wss| - 1]) + wss[|wss| - 1]
  }

  lemma FlattenPrefix(wss: seq<seq<Write>>, k: int)
    requires 0 <= k < |wss|
    ensures Flatten(wss[..k + 1]) == Flatten(wss[..k]) + wss[k]
  {
    assert wss[..k + 1][..k] == wss[..k];
  }

  /** `dict` maps distinct keys to distinct values. */
  predicate Injective<T(==)>(dict: map<T, int>)
  {
    forall x, y :: x in dict && y in dict && x != y ==> dict[x] != dict[y]
  }

  /** The key column of a file: `key` read from every row, in file order. */
  function Keys<R, K>(rows: seq<R>, key: R -> K): (ids: seq<K>)
    ensures |ids| == |rows| && forall k :: 0 <= k < |rows| ==> ids[k] == key(rows[k])
  {
    seq(|rows|, k requires 0 <= k < |rows| => key(rows[k]))
  }

  /** The assignments of file row `m` all go to the matrix row `dict[ids[m]]`,
      and a file row whose id is not in `dict` assigns nothing. */
  predicate WritesTargetRow<T(==)>(wss: seq<seq<Write>>, ids: seq<T>, dict: map<T, int>)
  {
    |wss| == |ids| &&
    forall m, w :: 0 <= m < |wss| && w in wss[m] ==> ids[m] in dict && w.row == dict[ids[m]]
  }

  lemma {:induction false} NoWritesToRow(wss: seq<seq<Write>>, i: int, j: int)
    requires forall m, w :: 0 <= m < |wss| && w in wss[m] ==> w.row != i
    ensures CellAfter(Flatten(wss), i, j) == 0.0
  {
    if wss != [] {
      var n := |wss| - 1;
      NoWritesToRow(wss[..n], i, j);
      CellAfterConcat(Flatten(wss[..n]), wss[n], i, j);
      assert !HitsSome(wss[n], i, j) by {
        forall k | 0 <= k < |wss[n]| ensures !Hits(wss[n][k], i, j) {
          assert wss[n][k] in wss[n];
        }
      }
    }
  }

  /** A matrix row that no file row is mapped to keeps its zeros. */
  lemma UnmappedRowIsZero<T>(wss: seq<seq<Write>>, ids: seq<T>, dict: map<T, int>, i: int, j: int)
    requires WritesTargetRow(wss, ids, dict)
    requires forall m :: 0 <= m < |ids| && ids[m] in dict ==> dict[ids[m]] != i
    ensures CellAfter(Flatten(wss), i, j) == 0.0
  {
    NoWritesToRow(wss, i, j);
  }

  lemma {:induction false} OnlySourceWrites(wss: seq<seq<Write>>, k: int, i: int, j: int)
    requires 0 <= k < |wss|
    requires forall m, w :: 0 <= m < |wss| && m != k && w in wss[m] ==> w.row != i
    ensures CellAfter(Flatten(wss), i, j) == CellAfter(wss[k], i, j)
  {
    var n := |wss| - 1;
    CellAfterConcat(Flatten(wss[..n]), wss[n], i, j);
    if k == n {
      NoWritesToRow(wss[..n], i, j);
      LastWriteWins(wss[n], i, j);
    } else {
      OnlySourceWrites(wss[..n], k, i, j);
      assert !HitsSome(wss[n], i, j) by {
        forall t | 0 <= t < |wss[n]| ensures !Hits(wss[n][t], i, j) {
          assert wss[n][t] in wss[n];
        }
      }
    }
  }

  /** With distinct file ids and an injective id dictionary, the matrix row of
      a mapped file row holds exactly what that file row assigned. */
  lemma MappedRowFromItsSource<T>(wss: seq<seq<Write>>, ids: seq<T>, dict: map<T, int>, k: int, j: int)
    requires WritesTargetRow(wss, ids, dict) && Distinct(ids) && Injective(dict)
    requires 0 <= k < |ids| && ids[k] in dict
    ensures CellAfter(Flatten(wss), dict[ids[k]], j) == CellAfter(wss[k], dict[ids[k]], j)
  {
    OnlySourceWrites(wss, k, dict[ids[k]], j);
  }

  /** Every id is mapped to a row below `n`, as `map_data` numbers ids from 0. */
  predicate ValuesBelow<T(!new)>(dict: map<T, int>, n: int)
  {
    forall x :: x in dict ==> 0 <= dict[x] < n
  }

  /** Every assignment addresses a cell of a `rows x cols` matrix. */
  predicate InBounds(ws: seq<Write>, rows: int, cols: int)
  {
    forall k :: 0 <= k < |ws| ==> 0 <= ws[k].row < rows && 0 <= ws[k].col < cols
  }

  /** Every cell of `feat` holds what the assignments `ws` leave there. */
  ghost predicate Holds(feat: array2<real>, ws: seq<Write>)
    reads feat
  {
    forall i, j :: 0 <= i < feat.Length0 && 0 <= j < feat.Length1 ==> feat[i, j] == CellAfter(ws, i, j)
  }

  /** Performs the assignments `ws` on `feat`, which so far holds the effect of `done`. */
  method Apply(feat: array2<real>, ws: seq<Write>, ghost done: seq<Write>)
    requires InBounds(ws, feat.Length0, feat.Length1)
    requires Holds(feat, done)
    modifies feat
    ensures Holds(feat, done + ws)
  {
    var m := 0;
    assert done + ws[..0] == done;
    while m < |ws|
      invariant 0 <= m <= |ws|
      invariant Holds(feat, done + ws[..m])
    {
      var w := ws[m];
      feat[w.row, w.col] := w.val;
      forall i, j | 0 <= i < feat.Length0 && 0 <= j < feat.Length1
        ensures feat[i, j] == CellAfter(done + ws[..m + 1], i, j)
      {
        assert done + ws[..m + 1] == (done + ws[..m]) + [w];
        CellAfterSnoc(done + ws[..m], w, i, j);
      }
      m := m + 1;
    }
    assert ws[..m] == ws;
  }

  /** Performs the assignments `ws` of file row `k` of the walk `table`. */
  method ApplyRow(feat: array2<real>, ws: seq<Write>, ghost table: seq<seq<Write>>, ghost k: int)
    requires 0 <= k < |table| && table[k] == ws
    requires InBounds(ws, feat.Length0, feat.Length1)
    requires Holds(feat, Flatten(table[..k]))
    modifies feat
    ensures Holds(feat, Flatten(table[..k + 1]))
  {
    FlattenPrefix(table, k);
    Apply(feat, ws, Flatten(table[..k]));
  }

  /** A file row that assigns nothing leaves the matrix as it was. */
  lemma SkipRow(table: seq<seq<Write>>, k: int)
    requires 0 <= k < |table| && table[k] == []
    ensures Flatten(table[..k + 1]) == Flatten(table[..k])
  {
    FlattenPrefix(table, k);
  }

  /** Before the walk the matrix is zero, which is what no assignment leaves. */
  lemma WalkStart(feat: array2<real>, table: seq<seq<Write>>)
    requires forall i, j :: 0 <= i < feat.Length0 && 0 <= j < feat.Length1 ==> feat[i, j] == 0.0
    ensures Holds(feat, Flatten(table[..0]))
  {
    assert table[..0] == [];
  }

  lemma WalkEnd(table: seq<seq<Write>>)
    ensures Flatten(table[..|table|]) == Flatten(table)
  {
    assert table[..|table|] == table;
  }

  /** `{f: i for i, f in enumerate(keys, start=start)}` over distinct keys:
      the keys are numbered consecutively from `start`. */
  function Enumerate<T(==,!new)>(keys: seq<T>, start: int): (d: map<T, int>)
    requires Distinct(keys)
    ensures forall i :: 0 <= i < |keys| ==> keys[i] in d && d[keys[i]] == start + i
    ensures forall x :: x in d ==> start <= d[x] < start + |keys|
  {
    map i | 0 <= i < |keys| :: keys[i] := start + i
  }

  /** The dictionary knows only the enumerated keys. */
  lemma EnumerateKeys<T(!new)>(keys: seq<T>, start: int, x: T)
    requires Distinct(keys) && x in Enumerate(keys, start)
    ensures exists i :: 0 <= i < |keys| && keys[i] == x
  {
  }

  /** Distinct keys get distinct numbers. */
  lemma EnumerateInjective<T(!new)>(keys: seq<T>, start: int)
    requires Distinct(keys)
    ensures Injective(Enumerate(keys, start))
  {
    var d := Enumerate(keys, start);
    forall x, y | x in d && y in d && x != y ensures d[x] != d[y] {
      var i :| 0 <= i < |keys| && keys[i] == x;
      var j :| 0 <= j < |keys| && keys[j] == y;
    }
  }

  lemma DistinctPrefix<T>(keys: seq<T>, n: nat)
    requires Distinct(keys) && n <= |keys|
    ensures Distinct(keys[..n])
  {
    forall i, j | 0 <= i < n && 0 <= j < n && i != j ensures keys[..n][i] != keys[..n][j] {
      assert keys[..n][i] == keys[i] && keys[..n][j] == keys[j];
    }
  }

  lemma LastNotInPrefix<T>(keys: seq<T>)
    requires Distinct(keys) && |keys| > 0
    ensures keys[|keys| - 1] !in keys[..|keys| - 1]
  {
    var n := |keys| - 1;
    forall i | 0 <= i < n ensures keys[..n][i] != keys[n] { assert keys[..n][i] == keys[i]; }
  }

  /** Numbering one more key adds exactly that key. */
  lemma EnumerateSnocKeys<T(!new)>(keys: seq<T>, start: int)
    requires Distinct(keys) && |keys| > 0
    ensures Distinct(keys[..|keys| - 1])
    ensures Enumerate(keys, start).Keys == Enumerate(keys[..|keys| - 1], start).Keys + {keys[|keys| - 1]}
  {
    var n := |keys| - 1;
    DistinctPrefix(keys, n);
    assert keys == keys[..n] + [keys[n]];
  }

  /** Numbering distinct keys gives a dictionary with one entry per key, so
      `len(d)` is the number of keys. */
  lemma {:induction false} EnumerateSize<T(!new)>(keys: seq<T>, start: int)
    requires Distinct(keys)
    ensures |Enumerate(keys, start)| == |keys|
  {
    if keys != [] {
      var n := |keys| - 1;
      LastNotInPrefix(keys);
      EnumerateSnocKeys(keys, start);
      EnumerateSize(keys[..n], start);
      assert |Enumerate(keys, start).Keys| == |Enumerate(keys[..n], start).Keys| + 1;
    }
  }
}
