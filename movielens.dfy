/** Side information of the two MovieLens datasets. Each feature matrix starts
    as zeros with one row per mapped user or item; the metadata file is walked
    row by row, and a row whose id the rating dictionary knows is written to
    the matrix row that id was mapped to.

    ml_100k: items get their genre flags, users get a scaled age in column 0,
    gender in column 1 and a one-hot occupation from column 2 on.
    ml_1m: items get a multi-hot genre vector, users one one-hot block per
    categorical column, the blocks laid out one after the other. */
module MovieLensFeatures {
  import opened Sequences
  import opened Ratings
  import opened FeatureWrites

  // ---------------------------------------------------------------- ml_100k items

  /** The 0/1 genre flag columns at the end of a `u.item` row, from 'unknown' to 'Western'. */
  const FlagColumns: nat := 19

  /** `movie_df.columns.values[6:]` starts after 'unknown': 18 genres. */
  const NumGenres: nat := 18

  /** A row of `u.item`: the movie id and its 19 flag columns. */
  datatype MovieRow = MovieRow(id: int, flags: seq<real>)

  predicate WellFormedMovies(rows: seq<MovieRow>)
  {
    forall k :: 0 <= k < |rows| ==> |rows[k].flags| == FlagColumns
  }

  /** `movie_df[genre_headers]` for one row: the flags without 'unknown'. */
  function GenreVector(r: MovieRow): (g: seq<real>)
    requires |r.flags| == FlagColumns
    ensures |g| == NumGenres
    ensures forall j :: 0 <= j < NumGenres ==> g[j] == r.flags[j + 1]
  {
    r.flags[1..]
  }

  /** `v_features[v_dict[movie_id], :] = g_vec` when the movie is mapped. */
  function MovieWrites(r: MovieRow, vDict: map<int, int>): (ws: seq<Write>)
    requires |r.flags| == FlagColumns
    ensures forall w :: w in ws ==> r.id in vDict && w.row == vDict[r.id]
  {
    if r.id in vDict then seq(NumGenres, j requires 0 <= j < NumGenres => Write(vDict[r.id], j, GenreVector(r)[j]))
    else []
  }

  /** The assignments of the whole walk over `u.item`, row by row. */
  function MovieTable(rows: seq<MovieRow>, vDict: map<int, int>): (wss: seq<seq<Write>>)
    requires WellFormedMovies(rows)
    ensures WritesTargetRow(wss, Keys(rows, (r: MovieRow) => r.id), vDict)
    ensures forall k :: 0 <= k < |rows| ==> wss[k] == MovieWrites(rows[k], vDict)
  {
    seq(|rows|, k requires 0 <= k < |rows| => MovieWrites(rows[k], vDict))
  }

  /** The ml_100k item feature matrix: `numItems x 18`, each cell what the walk leaves in it. */
  method ItemGenreFeatures(numItems: nat, rows: seq<MovieRow>, vDict: map<int, int>) returns (feat: array2<real>)
    requires WellFormedMovies(rows) && ValuesBelow(vDict, numItems)
    ensures feat.Length0 == numItems && feat.Length1 == NumGenres
    ensures Holds(feat, Flatten(MovieTable(rows, vDict)))
  {
    feat := new real[numItems, NumGenres]((i, j) => 0.0);
    ghost var table := MovieTable(rows, vDict);
    WalkStart(feat, table);
    var k := 0;
    while k < |rows|
      invariant 0 <= k <= |rows|
      invariant Holds(feat, Flatten(table[..k]))
    {
      var r := rows[k];
      if r.id in vDict {
        ApplyRow(feat, MovieWrites(r, vDict), table, k);
      } else {
        SkipRow(table, k);
      }
      k := k + 1;
    }
    WalkEnd(table);
  }


  /** A mapped movie's feature row is its 18 genre flags ('unknown' is not a feature). */
  lemma MappedMovieHasItsGenres(rows: seq<MovieRow>, vDict: map<int, int>, k: int, j: int)
    requires WellFormedMovies(rows) && Distinct(Keys(rows, (r: MovieRow) => r.id)) && Injective(vDict)
    requires 0 <= k < |rows| && rows[k].id in vDict && 0 <= j < NumGenres
    ensures CellAfter(Flatten(MovieTable(rows, vDict)), vDict[rows[k].id], j) == rows[k].flags[j + 1]
  {
    var table := MovieTable(rows, vDict);
    MappedRowFromItsSource(table, Keys(rows, (r: MovieRow) => r.id), vDict, k, j);
    var u := vDict[rows[k].id];
    var ws := MovieWrites(rows[k], vDict);
    assert table[k] == ws;
    assert forall t :: 0 <= t < |ws| ==> ws[t] == Write(u, t, GenreVector(rows[k])[t]);
    assert Hits(ws[j], u, j);
    LastWriteWins(ws, u, j);
    var t :| 0 <= t < |ws| && Hits(ws[t], u, j) && CellAfter(ws, u, j) == ws[t].val;
    assert t == j;
  }

  /** An item row that no `u.item` row is mapped to stays all zero. */
  lemma UnlistedItemRowIsZero(rows: seq<MovieRow>, vDict: map<int, int>, i: int, j: int)
    requires WellFormedMovies(rows)
    requires forall k :: 0 <= k < |rows| && rows[k].id in vDict ==> vDict[rows[k].id] != i
    ensures CellAfter(Flatten(MovieTable(rows, vDict)), i, j) == 0.0
  {
    UnmappedRowIsZero(MovieTable(rows, vDict), Keys(rows, (r: MovieRow) => r.id), vDict, i, j);
  }

  // ---------------------------------------------------------------- ml_100k users

  /** A row of `u.user`: id, age already divided by the largest age, gender and occupation. */
  datatype UserRow = UserRow(id: int, scaledAge: real, gender: string, occupation: string)

  const AgeColumn: nat := 0
  const GenderColumn: nat := 1

  /** The column of the first occupation: `enumerate(occupation, start=2)`. */
  const FirstOccupationColumn: nat := 2

  /** `gender_dict`. */
  function GenderDict(): map<string, real>
  {
    map["M" := 0.0, "F" := 1.0]
  }

  /** `set(users_df['occupation'].values.tolist())`. */
  function OccupationSet(rows: seq<UserRow>): set<string>
  {
    SetOf(seq(|rows|, k requires 0 <= k < |rows| => rows[k].occupation))
  }

  /** `occupations` is the iteration order of the occupation set. */
  predicate IsOccupationOrder(rows: seq<UserRow>, occupations: seq<string>)
  {
    IsSetOrder(occupations, OccupationSet(rows))
  }

  lemma OccupationListed(rows: seq<UserRow>, occupations: seq<string>, k: int)
    requires IsOccupationOrder(rows, occupations) && 0 <= k < |rows|
    ensures rows[k].occupation in OccupationDict(occupations)
  {
    var s := seq(|rows|, k requires 0 <= k < |rows| => rows[k].occupation);
    SetOfHas(s, k);
    var i :| 0 <= i < |occupations| && occupations[i] == rows[k].occupation;
  }

  /** `occupation_dict`. */
  function OccupationDict(occupations: seq<string>): map<string, int>
    requires Distinct(occupations)
  {
    Enumerate(occupations, FirstOccupationColumn)
  }

  /** The three assignments of a mapped user with a known gender: age, gender, occupation. */
  function UserWrites(r: UserRow, occupationDict: map<string, int>, uDict: map<int, int>): (ws: seq<Write>)
    requires r.occupation in occupationDict
    ensures forall w :: w in ws ==> r.id in uDict && w.row == uDict[r.id]
  {
    if r.id in uDict && r.gender in GenderDict() then
      var u := uDict[r.id];
      [Write(u, AgeColumn, r.scaledAge), Write(u, GenderColumn, GenderDict()[r.gender]),
       Write(u, occupationDict[r.occupation], 1.0)]
    else []
  }

  function UserTable(rows: seq<UserRow>, occupations: seq<string>, uDict: map<int, int>): (wss: seq<seq<Write>>)
    requires IsOccupationOrder(rows, occupations)
    ensures WritesTargetRow(wss, Keys(rows, (r: UserRow) => r.id), uDict)
    ensures forall k :: 0 <= k < |rows| ==>
      (OccupationListed(rows, occupations, k); wss[k] == UserWrites(rows[k], OccupationDict(occupations), uDict))
  {
    var wss := seq(|rows|, k requires 0 <= k < |rows| =>
      OccupationListed(rows, occupations, k); UserWrites(rows[k], OccupationDict(occupations), uDict));
    var ids := Keys(rows, (r: UserRow) => r.id);
    assert WritesTargetRow(wss, ids, uDict) by {
      forall m, w | 0 <= m < |wss| && w in wss[m] ensures ids[m] in uDict && w.row == uDict[ids[m]] {
        OccupationListed(rows, occupations, m);
        assert wss[m] == UserWrites(rows[m], OccupationDict(occupations), uDict);
      }
    }
    wss
  }

  /** A user's assignments stay inside the `numUsers x (2 + |occupations|)` matrix. */
  lemma UserWritesInBounds(rows: seq<UserRow>, occupations: seq<string>, uDict: map<int, int>, k: int, numUsers: int)
    requires IsOccupationOrder(rows, occupations) && 0 <= k < |rows| && ValuesBelow(uDict, numUsers)
    ensures (OccupationListed(rows, occupations, k);
      InBounds(UserWrites(rows[k], OccupationDict(occupations), uDict), numUsers, 2 + |occupations|))
  {
    OccupationListed(rows, occupations, k);
  }

  /** Every mapped user has a gender `gender_dict` knows. */
  predicate GendersKnown(rows: seq<UserRow>, uDict: map<int, int>)
  {
    forall k :: 0 <= k < |rows| && rows[k].id in uDict ==> rows[k].gender in GenderDict()
  }

  /** Every mapped user among the first `n` rows has a known gender. */
  predicate GendersKnownBefore(rows: seq<UserRow>, uDict: map<int, int>, n: int)
  {
    forall i :: 0 <= i < n && i < |rows| && rows[i].id in uDict ==> rows[i].gender in GenderDict()
  }

  lemma GendersKnownStep(rows: seq<UserRow>, uDict: map<int, int>, k: int)
    requires 0 <= k < |rows| && GendersKnownBefore(rows, uDict, k)
    requires rows[k].id in uDict ==> rows[k].gender in GenderDict()
    ensures GendersKnownBefore(rows, uDict, k + 1)
  {
  }

  lemma GendersKnownAll(rows: seq<UserRow>, uDict: map<int, int>)
    requires GendersKnownBefore(rows, uDict, |rows|)
    ensures GendersKnown(rows, uDict)
  {
  }

  /** One mapped user with an unknown gender is enough for the `KeyError`. */
  lemma UnknownGender(rows: seq<UserRow>, uDict: map<int, int>, k: int)
    requires 0 <= k < |rows| && rows[k].id in uDict && rows[k].gender !in GenderDict()
    ensures !GendersKnown(rows, uDict)
  {
  }

  /** The ml_100k user feature matrix, `numUsers x (2 + len(occupation_dict))`.
      A mapped user whose gender is neither "M" nor "F" raises `KeyError`. */
  method UserFeatures(numUsers: nat, rows: seq<UserRow>, occupations: seq<string>, uDict: map<int, int>)
    returns (r: Result<array2<real>>)
    requires IsOccupationOrder(rows, occupations) && ValuesBelow(uDict, numUsers)
    ensures r.Success? <==> GendersKnown(rows, uDict)
    ensures r.Success? ==>
      r.value.Length0 == numUsers && r.value.Length1 == 2 + |occupations| &&
      Holds(r.value, Flatten(UserTable(rows, occupations, uDict)))
  {
    var occupationDict := OccupationDict(occupations);
    EnumerateSize(occupations, FirstOccupationColumn);
    var numFeats := 2 + |occupationDict|;
    var feat := new real[numUsers, numFeats]((i, j) => 0.0);
    WalkStart(feat, UserTable(rows, occupations, uDict));
    var known := WalkUsers(feat, rows, occupations, occupationDict, uDict);
    if !known {
      return Failure("KeyError: gender");
    }
    r := Success(feat);
  }

  /** The loop over `u.user`, on a matrix of zeros; it stops at the first mapped
      user whose gender is neither `M` nor `F`. */
  method WalkUsers(feat: array2<real>, rows: seq<UserRow>, occupations: seq<string>,
                   occupationDict: map<string, int>, uDict: map<int, int>) returns (known: bool)
    requires IsOccupationOrder(rows, occupations) && occupationDict == OccupationDict(occupations)
    requires ValuesBelow(uDict, feat.Length0) && feat.Length1 == 2 + |occupations|
    requires Holds(feat, Flatten(UserTable(rows, occupations, uDict)[..0]))
    modifies feat
    ensures known <==> GendersKnown(rows, uDict)
    ensures known ==> Holds(feat, Flatten(UserTable(rows, occupations, uDict)))
  {
    ghost var table := UserTable(rows, occupations, uDict);
    var k := 0;
    while k < |rows|
      invariant 0 <= k <= |rows|
      invariant GendersKnownBefore(rows, uDict, k)
      invariant Holds(feat, Flatten(table[..k]))
    {
      var row := rows[k];
      OccupationListed(rows, occupations, k);
      if row.id in uDict && row.gender !in GenderDict() {
        UnknownGender(rows, uDict, k);
        return false;
      }
      GendersKnownStep(rows, uDict, k);
      WriteUserRow(feat, rows, occupations, occupationDict, uDict, k);
      k := k + 1;
    }
    WalkEnd(table);
    GendersKnownAll(rows, uDict);
    known := true;
  }

  /** File row `k` of `u.user`: the three assignments of a mapped user, nothing otherwise. */
  method WriteUserRow(feat: array2<real>, rows: seq<UserRow>, occupations: seq<string>,
                      occupationDict: map<string, int>, uDict: map<int, int>, k: int)
    requires IsOccupationOrder(rows, occupations) && occupationDict == OccupationDict(occupations)
    requires 0 <= k < |rows| && ValuesBelow(uDict, feat.Length0) && feat.Length1 == 2 + |occupations|
    requires Holds(feat, Flatten(UserTable(rows, occupations, uDict)[..k]))
    modifies feat
    ensures Holds(feat, Flatten(UserTable(rows, occupations, uDict)[..k + 1]))
  {
    OccupationListed(rows, occupations, k);
    if rows[k].id in uDict && rows[k].gender in GenderDict() {
      UserWritesInBounds(rows, occupations, uDict, k, feat.Length0);
      ApplyRow(feat, UserWrites(rows[k], occupationDict, uDict), UserTable(rows, occupations, uDict), k);
    } else {
      SkipRow(UserTable(rows, occupations, uDict), k);
    }
  }

  /** A mapped user's row: the scaled age in column 0, the gender code in
      column 1, and among the occupation columns exactly the one of the
      user's occupation set to 1. */
  lemma MappedUserRow(rows: seq<UserRow>, occupations: seq<string>, uDict: map<int, int>, k: int, j: int)
    requires IsOccupationOrder(rows, occupations) && Distinct(Keys(rows, (r: UserRow) => r.id)) && Injective(uDict)
    requires 0 <= k < |rows| && rows[k].id in uDict && rows[k].gender in GenderDict()
    requires 0 <= j < 2 + |occupations|
    ensures var cell := CellAfter(Flatten(UserTable(rows, occupations, uDict)), uDict[rows[k].id], j);
      (j == AgeColumn ==> cell == rows[k].scaledAge) &&
      (j == GenderColumn ==> cell == GenderDict()[rows[k].gender]) &&
      (j >= FirstOccupationColumn ==>
        cell == if occupations[j - FirstOccupationColumn] == rows[k].occupation then 1.0 else 0.0)
  {
    var u := uDict[rows[k].id];
    var d := OccupationDict(occupations);
    OccupationListed(rows, occupations, k);
    MappedRowFromItsSource(UserTable(rows, occupations, uDict), Keys(rows, (r: UserRow) => r.id), uDict, k, j);
    var c := d[rows[k].occupation];
    var a, g, o := Write(u, AgeColumn, rows[k].scaledAge), Write(u, GenderColumn, GenderDict()[rows[k].gender]), Write(u, c, 1.0);
    assert UserWrites(rows[k], d, uDict) == [a, g, o];
    CellAfterThree(a, g, o, u, j);
    if j >= FirstOccupationColumn {
      assert d[occupations[j - FirstOccupationColumn]] == j;
    }
  }

  /** A user row that no `u.user` row is mapped to stays all zero. */
  lemma UnlistedUserRowIsZero(rows: seq<UserRow>, occupations: seq<string>, uDict: map<int, int>, i: int, j: int)
    requires IsOccupationOrder(rows, occupations)
    requires forall k :: 0 <= k < |rows| && rows[k].id in uDict ==> uDict[rows[k].id] != i
    ensures CellAfter(Flatten(UserTable(rows, occupations, uDict)), i, j) == 0.0
  {
    UnmappedRowIsZero(UserTable(rows, occupations, uDict), Keys(rows, (r: UserRow) => r.id), uDict, i, j);
  }

  // ---------------------------------------------------------------- ml_1m items

  /** A row of `movies.dat`: the movie id and its genre field split at '|'. */
  datatype MovieGenres = MovieGenres(id: int, genres: seq<string>)

  /** Every genre named in `movies.dat`: the set `genres` is built from. */
  function GenreSet(rows: seq<MovieGenres>): set<string>
  {
    if rows == [] then {} else GenreSet(rows[..|rows| - 1]) + SetOf(rows[|rows| - 1].genres)
  }

  /** `genres = list(set(genres))`: the genre set in its iteration order. */
  predicate IsGenreOrder(rows: seq<MovieGenres>, genres: seq<string>)
  {
    IsSetOrder(genres, GenreSet(rows))
  }

  lemma {:induction false} GenreInSet(rows: seq<MovieGenres>, k: int, t: int)
    requires 0 <= k < |rows| && 0 <= t < |rows[k].genres|
    ensures rows[k].genres[t] in GenreSet(rows)
  {
    var n := |rows| - 1;
    if k < n {
      assert rows[..n][k] == rows[k];
      GenreInSet(rows[..n], k, t);
    } else {
      SetOfHas(rows[k].genres, t);
    }
  }

  /** `genres_dict`. */
  function GenresDict(genres: seq<string>): map<string, int>
    requires Distinct(genres)
  {
    Enumerate(genres, 0)
  }

  lemma GenresListed(rows: seq<MovieGenres>, genres: seq<string>, k: int)
    requires IsGenreOrder(rows, genres) && 0 <= k < |rows|
    ensures forall t :: 0 <= t < |rows[k].genres| ==> rows[k].genres[t] in GenresDict(genres)
  {
    forall t | 0 <= t < |rows[k].genres| ensures rows[k].genres[t] in GenresDict(genres) {
      GenreInSet(rows, k, t);
      var i :| 0 <= i < |genres| && genres[i] == rows[k].genres[t];
    }
  }

  /** For a mapped movie: a 1 in the column `genres_dict[g]` of each of its genres. */
  function GenreWrites(r: MovieGenres, genresDict: map<string, int>, vDict: map<int, int>): (ws: seq<Write>)
    requires forall t :: 0 <= t < |r.genres| ==> r.genres[t] in genresDict
    ensures forall w :: w in ws ==> r.id in vDict && w.row == vDict[r.id]
  {
    if r.id in vDict then
      seq(|r.genres|, t requires 0 <= t < |r.genres| => Write(vDict[r.id], genresDict[r.genres[t]], 1.0))
    else []
  }

  /** The assignments of the whole walk over `movies.dat`, row by row. */
  function GenreTable(rows: seq<MovieGenres>, genres: seq<string>, vDict: map<int, int>): (wss: seq<seq<Write>>)
    requires IsGenreOrder(rows, genres)
    ensures WritesTargetRow(wss, Keys(rows, (r: MovieGenres) => r.id), vDict)
    ensures forall k :: 0 <= k < |rows| ==>
      (GenresListed(rows, genres, k); wss[k] == GenreWrites(rows[k], GenresDict(genres), vDict))
  {
    var wss := seq(|rows|, k requires 0 <= k < |rows| =>
      GenresListed(rows, genres, k); GenreWrites(rows[k], GenresDict(genres), vDict));
    var ids := Keys(rows, (r: MovieGenres) => r.id);
    assert WritesTargetRow(wss, ids, vDict) by {
      forall m, w | 0 <= m < |wss| && w in wss[m] ensures ids[m] in vDict && w.row == vDict[ids[m]] {
        GenresListed(rows, genres, m);
        assert wss[m] == GenreWrites(rows[m], GenresDict(genres), vDict);
      }
    }
    wss
  }

  /** Every genre column a movie row writes lies inside the `numItems x len(genres)` matrix. */
  lemma GenreWritesInBounds(rows: seq<MovieGenres>, genres: seq<string>, vDict: map<int, int>, k: int, numItems: int)
    requires IsGenreOrder(rows, genres) && 0 <= k < |rows| && ValuesBelow(vDict, numItems)
    ensures (GenresListed(rows, genres, k);
      InBounds(GenreWrites(rows[k], GenresDict(genres), vDict), numItems, |genres|))
  {
    GenresListed(rows, genres, k);
  }

  /** The ml_1m item feature matrix, `numItems x len(genres)`. */
  method ItemGenreFeatures1m(numItems: nat, rows: seq<MovieGenres>, genres: seq<string>, vDict: map<int, int>)
    returns (feat: array2<real>)
    requires IsGenreOrder(rows, genres) && ValuesBelow(vDict, numItems)
    ensures feat.Length0 == numItems && feat.Length1 == |genres|
    ensures Holds(feat, Flatten(GenreTable(rows, genres, vDict)))
  {
    var genresDict := GenresDict(genres);
    feat := new real[numItems, |genres|]((i, j) => 0.0);
    ghost var table := GenreTable(rows, genres, vDict);
    WalkStart(feat, table);
    var k := 0;
    while k < |rows|
      invariant 0 <= k <= |rows|
      invariant Holds(feat, Flatten(table[..k]))
    {
      WriteMovieGenres(feat, rows, genres, genresDict, vDict, k);
      k := k + 1;
    }
    WalkEnd(table);
  }

  /** File row `k` of `movies.dat`: a 1 for each of its genres when the movie is mapped. */
  method WriteMovieGenres(feat: array2<real>, rows: seq<MovieGenres>, genres: seq<string>,
                          genresDict: map<string, int>, vDict: map<int, int>, k: int)
    requires IsGenreOrder(rows, genres) && genresDict == GenresDict(genres)
    requires 0 <= k < |rows| && ValuesBelow(vDict, feat.Length0) && feat.Length1 == |genres|
    requires Holds(feat, Flatten(GenreTable(rows, genres, vDict)[..k]))
    modifies feat
    ensures Holds(feat, Flatten(GenreTable(rows, genres, vDict)[..k + 1]))
  {
    GenresListed(rows, genres, k);
    if rows[k].id in vDict {
      GenreWritesInBounds(rows, genres, vDict, k, feat.Length0);
      ApplyRow(feat, GenreWrites(rows[k], genresDict, vDict), GenreTable(rows, genres, vDict), k);
    } else {
      SkipRow(GenreTable(rows, genres, vDict), k);
    }
  }

  /** A mapped movie's row is the multi-hot indicator of its genres: column
      `j` is 1 exactly when `genres[j]` is one of the movie's genres. */
  lemma MappedMovieIsMultiHot(rows: seq<MovieGenres>, genres: seq<string>, vDict: map<int, int>, k: int, j: int)
    requires IsGenreOrder(rows, genres) && Distinct(Keys(rows, (r: MovieGenres) => r.id)) && Injective(vDict)
    requires 0 <= k < |rows| && rows[k].id in vDict && 0 <= j < |genres|
    ensures CellAfter(Flatten(GenreTable(rows, genres, vDict)), vDict[rows[k].id], j) ==
      if genres[j] in rows[k].genres then 1.0 else 0.0
  {
    var u := vDict[rows[k].id];
    var d := GenresDict(genres);
    GenresListed(rows, genres, k);
    MappedRowFromItsSource(GenreTable(rows, genres, vDict), Keys(rows, (r: MovieGenres) => r.id), vDict, k, j);
    var ws := GenreWrites(rows[k], d, vDict);
    IndicatorCell(ws, u, j);
    if genres[j] in rows[k].genres {
      var t :| 0 <= t < |rows[k].genres| && rows[k].genres[t] == genres[j];
      assert Hits(ws[t], u, j);
    } else {
      forall t | 0 <= t < |ws| ensures !Hits(ws[t], u, j) {
        GenreColumnOf(genres, rows[k].genres[t], j);
      }
    }
  }

  /** `genres_dict` sends exactly `genres[j]` to column `j`. */
  lemma GenreColumnOf(genres: seq<string>, g: string, j: int)
    requires Distinct(genres) && g in GenresDict(genres) && 0 <= j < |genres|
    ensures GenresDict(genres)[g] == j <==> g == genres[j]
  {
    EnumerateKeys(genres, 0, g);
  }

  // ---------------------------------------------------------------- ml_1m users

  /** `users_df.columns.values[1:]`: gender, age, occupation and zip-code. */
  const NumUserColumns: nat := 4

  /** A row of `users.dat`: the user id and its four categorical values, each
      encoded as an integer so that `np.unique` orders them. */
  datatype UserValues = UserValues(id: int, values: seq<int>)

  predicate WellFormedUsers(rows: seq<UserValues>)
  {
    forall k :: 0 <= k < |rows| ==> |rows[k].values| == NumUserColumns
  }

  /** `users_df[header].values`. */
  function Column(rows: seq<UserValues>, h: int): (c: seq<int>)
    requires WellFormedUsers(rows) && 0 <= h < NumUserColumns
    ensures |c| == |rows| && forall k :: 0 <= k < |rows| ==> c[k] == rows[k].values[h]
  {
    seq(|rows|, k requires 0 <= k < |rows| => rows[k].values[h])
  }

  /** `np.unique(users_df[header].values)`: the values of the column, sorted and without repeats. */
  function BlockValues(rows: seq<UserValues>, h: int): (b: seq<int>)
    requires WellFormedUsers(rows) && 0 <= h < NumUserColumns
    ensures Distinct(b)
    ensures forall k :: 0 <= k < |rows| ==> rows[k].values[h] in b
  {
    var c := Column(rows, h);
    var b := SortedUnique(c);
    assert forall i, j :: 0 <= i < |b| && 0 <= j < |b| && i != j ==> b[i] != b[j] by {
      forall i, j | 0 <= i < |b| && 0 <= j < |b| && i != j ensures b[i] != b[j] {
        if i < j { assert b[i] < b[j]; } else { assert b[j] < b[i]; }
      }
    }
    assert forall k :: 0 <= k < |rows| ==> c[k] in b;
    b
  }

  /** The block of header `h` is `np.unique` of its column: sorted, and holding
      only values that occur in the column. */
  lemma BlockValuesAreUnique(rows: seq<UserValues>, h: int, x: int)
    requires WellFormedUsers(rows) && 0 <= h < NumUserColumns
    ensures StrictlyIncreasing(BlockValues(rows, h))
    ensures x in BlockValues(rows, h) ==> exists k :: 0 <= k < |rows| && rows[k].values[h] == x
  {
    var c := Column(rows, h);
    if x in SortedUnique(c) {
      assert x in c;
      var k :| 0 <= k < |rows| && c[k] == x;
    }
  }

  /** The four `np.unique` lists, one per header, in header order. */
  function Blocks(rows: seq<UserValues>): (blocks: seq<seq<int>>)
    requires WellFormedUsers(rows)
    ensures |blocks| == NumUserColumns
    ensures forall h :: 0 <= h < NumUserColumns ==> blocks[h] == BlockValues(rows, h)
  {
    seq(NumUserColumns, h requires 0 <= h < NumUserColumns => BlockValues(rows, h))
  }

  /** Every block lists each of its values once. */
  predicate DistinctBlocks(blocks: seq<seq<int>>)
  {
    forall h :: 0 <= h < |blocks| ==> Distinct(blocks[h])
  }

  /** One block per header, without repeats, and every value of a header's
      column listed in that header's block: what the layout proofs need of
      the `np.unique` lists. */
  predicate BlocksCover(rows: seq<UserValues>, blocks: seq<seq<int>>)
  {
    WellFormedUsers(rows) && |blocks| == NumUserColumns && DistinctBlocks(blocks) &&
    forall k, h :: 0 <= k < |rows| && 0 <= h < NumUserColumns ==> rows[k].values[h] in blocks[h]
  }

  lemma BlocksOfRowsCover(rows: seq<UserValues>)
    requires WellFormedUsers(rows)
    ensures BlocksCover(rows, Blocks(rows))
  {
  }

  /** The first column of header `h`'s block: the sizes of the blocks before it. */
  function Offset(blocks: seq<seq<int>>, h: int): nat
    requires 0 <= h <= |blocks|
  {
    if h == 0 then 0 else Offset(blocks, h - 1) + |blocks[h - 1]|
  }

  /** `feat_dicts[h]`: the values of header `h` numbered from its block's first column. */
  function FeatDict(blocks: seq<seq<int>>, h: int): map<int, int>
    requires DistinctBlocks(blocks) && 0 <= h < |blocks|
  {
    Enumerate(blocks[h], Offset(blocks, h))
  }

  /** The list `feat_dicts`. */
  function FeatDicts(blocks: seq<seq<int>>): (ds: seq<map<int, int>>)
    requires DistinctBlocks(blocks)
    ensures |ds| == |blocks| && forall h :: 0 <= h < |blocks| ==> ds[h] == FeatDict(blocks, h)
  {
    seq(|blocks|, h requires 0 <= h < |blocks| => FeatDict(blocks, h))
  }

  /** `sum(len(d) for d in feat_dicts)`. */
  function SumSizes(dicts: seq<map<int, int>>): nat
  {
    if dicts == [] then 0 else SumSizes(dicts[..|dicts| - 1]) + |dicts[|dicts| - 1]|
  }

  lemma SumSizesSnoc(dicts: seq<map<int, int>>, d: map<int, int>)
    ensures SumSizes(dicts + [d]) == SumSizes(dicts) + |d|
  {
    assert (dicts + [d])[..|dicts|] == dicts;
  }

  /** Appending the next header's dictionary keeps the running count equal to
      the total size of the dictionaries so far. */
  lemma FeatDictsStep(blocks: seq<seq<int>>, featDicts: seq<map<int, int>>, h: int)
    requires DistinctBlocks(blocks) && 0 <= h < |blocks|
    requires featDicts == FeatDicts(blocks)[..h]
    requires SumSizes(featDicts) == Offset(blocks, h)
    ensures featDicts + [FeatDict(blocks, h)] == FeatDicts(blocks)[..h + 1]
    ensures SumSizes(featDicts + [FeatDict(blocks, h)]) == Offset(blocks, h + 1) == Offset(blocks, h) + |FeatDict(blocks, h)|
  {
    EnumerateSize(blocks[h], Offset(blocks, h));
    PrefixSnoc(FeatDicts(blocks), h);
    SumSizesSnoc(featDicts, FeatDict(blocks, h));
  }

  /** The `cntr` loop: one dictionary per header, numbered from the running
      count of columns used so far, and `num_feats` their total size. The
      `np.unique` list of each header is taken from `blocks`. */
  method BuildFeatDicts(blocks: seq<seq<int>>) returns (featDicts: seq<map<int, int>>, numFeats: nat)
    requires DistinctBlocks(blocks)
    ensures featDicts == FeatDicts(blocks)
    ensures numFeats == SumSizes(featDicts) == Offset(blocks, |blocks|)
  {
    var cntr := 0;
    featDicts := [];
    var h := 0;
    while h < |blocks|
      invariant 0 <= h <= |blocks|
      invariant featDicts == FeatDicts(blocks)[..h]
      invariant cntr == Offset(blocks, h) == SumSizes(featDicts)
    {
      var d := Enumerate(blocks[h], cntr);
      FeatDictsStep(blocks, featDicts, h);
      featDicts := featDicts + [d];
      cntr := cntr + |d|;
      h := h + 1;
    }
    assert FeatDicts(blocks)[..h] == FeatDicts(blocks);
    numFeats := SumSizes(featDicts);
  }

  lemma {:induction false} OffsetMonotone(blocks: seq<seq<int>>, g: int, h: int)
    requires 0 <= g <= h <= |blocks|
    ensures Offset(blocks, g) <= Offset(blocks, h)
    decreases h - g
  {
    if g < h {
      OffsetMonotone(blocks, g, h - 1);
    }
  }

  /** Header `h` owns the contiguous columns `[Offset(h), Offset(h + 1))`, one
      per value of its block in block order, inside the `num_feats` columns. */
  lemma BlockLayout(blocks: seq<seq<int>>, h: int)
    requires DistinctBlocks(blocks) && 0 <= h < |blocks|
    ensures Offset(blocks, h + 1) == Offset(blocks, h) + |FeatDict(blocks, h)|
    ensures Offset(blocks, h + 1) <= Offset(blocks, |blocks|)
    ensures forall i :: 0 <= i < |blocks[h]| ==> FeatDict(blocks, h)[blocks[h][i]] == Offset(blocks, h) + i
    ensures forall x :: x in FeatDict(blocks, h) ==> Offset(blocks, h) <= FeatDict(blocks, h)[x] < Offset(blocks, h + 1)
  {
    EnumerateSize(blocks[h], Offset(blocks, h));
    OffsetMonotone(blocks, h + 1, |blocks|);
  }

  /** The dictionary of header `h` knows only values that occur in its column. */
  lemma BlockKeysOccur(rows: seq<UserValues>, h: int)
    requires WellFormedUsers(rows) && 0 <= h < NumUserColumns
    ensures forall x :: x in FeatDict(Blocks(rows), h) ==> exists k :: 0 <= k < |rows| && rows[k].values[h] == x
  {
    forall x | x in FeatDict(Blocks(rows), h) ensures exists k :: 0 <= k < |rows| && rows[k].values[h] == x {
      EnumerateKeys(BlockValues(rows, h), Offset(Blocks(rows), h), x);
      BlockValuesAreUnique(rows, h, x);
    }
  }

  /** Blocks of different headers never share a column: every column of an
      earlier header lies left of every column of a later one. */
  lemma BlocksDisjoint(blocks: seq<seq<int>>, g: int, h: int, x: int, y: int)
    requires DistinctBlocks(blocks) && 0 <= g < h < |blocks|
    requires x in FeatDict(blocks, g) && y in FeatDict(blocks, h)
    ensures FeatDict(blocks, g)[x] < FeatDict(blocks, h)[y]
  {
    BlockLayout(blocks, g);
    OffsetMonotone(blocks, g + 1, h);
  }

  /** The total width is the sum of the sizes of the four `np.unique` lists. */
  lemma NumFeatsIsSumOfBlocks(rows: seq<UserValues>)
    requires WellFormedUsers(rows)
    ensures Offset(Blocks(rows), NumUserColumns) ==
      |BlockValues(rows, 0)| + |BlockValues(rows, 1)| + |BlockValues(rows, 2)| + |BlockValues(rows, 3)|
  {
    var blocks := Blocks(rows);
    assert Offset(blocks, 1) == |blocks[0]|;
    assert Offset(blocks, 2) == Offset(blocks, 1) + |blocks[1]|;
    assert Offset(blocks, 3) == Offset(blocks, 2) + |blocks[2]|;
  }

  /** For a mapped user: a 1 in the column `featDicts[h][row[header]]` of its value under each header. */
  function ValueWrites(r: UserValues, featDicts: seq<map<int, int>>, uDict: map<int, int>): (ws: seq<Write>)
    requires |r.values| == NumUserColumns && |featDicts| == NumUserColumns
    requires forall h :: 0 <= h < NumUserColumns ==> r.values[h] in featDicts[h]
    ensures forall w :: w in ws ==> r.id in uDict && w.row == uDict[r.id]
  {
    if r.id in uDict then
      seq(NumUserColumns, h requires 0 <= h < NumUserColumns => Write(uDict[r.id], featDicts[h][r.values[h]], 1.0))
    else []
  }

  lemma ValuesAreKeys(rows: seq<UserValues>, blocks: seq<seq<int>>, k: int)
    requires BlocksCover(rows, blocks) && 0 <= k < |rows|
    ensures forall h :: 0 <= h < NumUserColumns ==> rows[k].values[h] in FeatDicts(blocks)[h]
  {
    forall h | 0 <= h < NumUserColumns ensures rows[k].values[h] in FeatDict(blocks, h) {
      var i :| 0 <= i < |blocks[h]| && blocks[h][i] == rows[k].values[h];
      BlockLayout(blocks, h);
    }
  }

  /** The assignments of the whole walk over `users.dat`, row by row. */
  function ValueTable(rows: seq<UserValues>, blocks: seq<seq<int>>, uDict: map<int, int>): (wss: seq<seq<Write>>)
    requires BlocksCover(rows, blocks)
    ensures WritesTargetRow(wss, Keys(rows, (r: UserValues) => r.id), uDict)
    ensures forall k :: 0 <= k < |rows| ==> (ValuesAreKeys(rows, blocks, k); wss[k] == ValueWrites(rows[k], FeatDicts(blocks), uDict))
  {
    seq(|rows|, k requires 0 <= k < |rows| => ValuesAreKeys(rows, blocks, k); ValueWrites(rows[k], FeatDicts(blocks), uDict))
  }

  /** Every column a user row writes lies inside the `num_feats` columns. */
  lemma ValueWritesInBounds(rows: seq<UserValues>, blocks: seq<seq<int>>, uDict: map<int, int>, k: int, numUsers: int)
    requires BlocksCover(rows, blocks) && 0 <= k < |rows| && ValuesBelow(uDict, numUsers)
    ensures (ValuesAreKeys(rows, blocks, k);
      InBounds(ValueWrites(rows[k], FeatDicts(blocks), uDict), numUsers, Offset(blocks, NumUserColumns)))
  {
    ValuesAreKeys(rows, blocks, k);
    var ws := ValueWrites(rows[k], FeatDicts(blocks), uDict);
    forall t | 0 <= t < |ws| ensures 0 <= ws[t].row < numUsers && 0 <= ws[t].col < Offset(blocks, NumUserColumns) {
      BlockLayout(blocks, t);
      assert ws[t].col == FeatDict(blocks, t)[rows[k].values[t]];
    }
  }

  /** The ml_1m user feature matrix, `numUsers x num_feats`. */
  method UserFeatures1m(numUsers: nat, rows: seq<UserValues>, uDict: map<int, int>) returns (feat: array2<real>)
    requires WellFormedUsers(rows) && ValuesBelow(uDict, numUsers)
    ensures BlocksCover(rows, Blocks(rows))
    ensures feat.Length0 == numUsers && feat.Length1 == Offset(Blocks(rows), NumUserColumns)
    ensures Holds(feat, Flatten(ValueTable(rows, Blocks(rows), uDict)))
  {
    var blocks := Blocks(rows);
    BlocksOfRowsCover(rows);
    var featDicts, numFeats := BuildFeatDicts(blocks);
    feat := FillUserValues(numUsers, numFeats, rows, blocks, featDicts, uDict);
  }

  /** `u_features = np.zeros((num_users, num_feats))`, then the walk over `users.dat`. */
  method FillUserValues(numUsers: nat, numFeats: nat, rows: seq<UserValues>, ghost blocks: seq<seq<int>>,
                        featDicts: seq<map<int, int>>, uDict: map<int, int>) returns (feat: array2<real>)
    requires BlocksCover(rows, blocks) && featDicts == FeatDicts(blocks) && numFeats == Offset(blocks, NumUserColumns)
    requires ValuesBelow(uDict, numUsers)
    ensures feat.Length0 == numUsers && feat.Length1 == numFeats
    ensures Holds(feat, Flatten(ValueTable(rows, blocks, uDict)))
  {
    feat := new real[numUsers, numFeats]((i, j) => 0.0);
    ghost var table := ValueTable(rows, blocks, uDict);
    WalkStart(feat, table);
    var k := 0;
    while k < |rows|
      invariant 0 <= k <= |rows|
      invariant Holds(feat, Flatten(table[..k]))
    {
      WriteUserValues(feat, rows, blocks, featDicts, uDict, k);
      k := k + 1;
    }
    WalkEnd(table);
  }

  /** File row `k` of `users.dat`: a 1 in the column of each of its values when the user is mapped. */
  method WriteUserValues(feat: array2<real>, rows: seq<UserValues>, ghost blocks: seq<seq<int>>,
                         featDicts: seq<map<int, int>>, uDict: map<int, int>, k: int)
    requires BlocksCover(rows, blocks) && featDicts == FeatDicts(blocks)
    requires 0 <= k < |rows| && ValuesBelow(uDict, feat.Length0) && feat.Length1 == Offset(blocks, NumUserColumns)
    requires Holds(feat, Flatten(ValueTable(rows, blocks, uDict)[..k]))
    modifies feat
    ensures Holds(feat, Flatten(ValueTable(rows, blocks, uDict)[..k + 1]))
  {
    ValuesAreKeys(rows, blocks, k);
    if rows[k].id in uDict {
      ValueWritesInBounds(rows, blocks, uDict, k, feat.Length0);
      ApplyRow(feat, ValueWrites(rows[k], featDicts, uDict), ValueTable(rows, blocks, uDict), k);
    } else {
      SkipRow(ValueTable(rows, blocks, uDict), k);
    }
  }

  /** A mapped user has exactly one 1 in each header's block: column `j` of
      block `h` is 1 exactly when it is the column of the user's value under
      `h`, and that is the column of that value's position in the block. */
  lemma OneHotPerBlock(rows: seq<UserValues>, blocks: seq<seq<int>>, uDict: map<int, int>, k: int, h: int, j: int)
    requires BlocksCover(rows, blocks) && Distinct(Keys(rows, (r: UserValues) => r.id)) && Injective(uDict)
    requires 0 <= k < |rows| && rows[k].id in uDict && 0 <= h < NumUserColumns
    requires Offset(blocks, h) <= j < Offset(blocks, h + 1)
    ensures rows[k].values[h] in FeatDict(blocks, h)
    ensures Offset(blocks, h) <= FeatDict(blocks, h)[rows[k].values[h]] < Offset(blocks, h + 1)
    ensures CellAfter(Flatten(ValueTable(rows, blocks, uDict)), uDict[rows[k].id], j) ==
      if j == FeatDict(blocks, h)[rows[k].values[h]] then 1.0 else 0.0
    ensures j - Offset(blocks, h) < |blocks[h]|
    ensures CellAfter(Flatten(ValueTable(rows, blocks, uDict)), uDict[rows[k].id], j) ==
      if blocks[h][j - Offset(blocks, h)] == rows[k].values[h] then 1.0 else 0.0
  {
    ValuesAreKeys(rows, blocks, k);
    BlockLayout(blocks, h);
    MappedRowFromItsSource(ValueTable(rows, blocks, uDict), Keys(rows, (r: UserValues) => r.id), uDict, k, j);
    OneHotRowCell(rows, blocks, uDict, k, h, j);
    BlockColumnOf(blocks, h, rows[k].values[h], j);
  }

  /** Column `j` of header `h`'s block belongs to the value at position
      `j - Offset(h)` of that block, and to no other value. */
  lemma BlockColumnOf(blocks: seq<seq<int>>, h: int, x: int, j: int)
    requires DistinctBlocks(blocks) && 0 <= h < |blocks| && x in FeatDict(blocks, h)
    requires Offset(blocks, h) <= j < Offset(blocks, h + 1)
    ensures j - Offset(blocks, h) < |blocks[h]|
    ensures FeatDict(blocks, h)[x] == j <==> blocks[h][j - Offset(blocks, h)] == x
  {
    BlockLayout(blocks, h);
    EnumerateSize(blocks[h], Offset(blocks, h));
    EnumerateKeys(blocks[h], Offset(blocks, h), x);
    var i :| 0 <= i < |blocks[h]| && blocks[h][i] == x;
    assert Distinct(blocks[h]);
  }

  /** The cell `(u, j)` of a block-`h` column after the user's own four assignments. */
  lemma OneHotRowCell(rows: seq<UserValues>, blocks: seq<seq<int>>, uDict: map<int, int>, k: int, h: int, j: int)
    requires BlocksCover(rows, blocks) && 0 <= k < |rows| && rows[k].id in uDict && 0 <= h < NumUserColumns
    requires Offset(blocks, h) <= j < Offset(blocks, h + 1)
    ensures (ValuesAreKeys(rows, blocks, k);
      CellAfter(ValueWrites(rows[k], FeatDicts(blocks), uDict), uDict[rows[k].id], j) ==
        if j == FeatDict(blocks, h)[rows[k].values[h]] then 1.0 else 0.0)
  {
    var u := uDict[rows[k].id];
    ValuesAreKeys(rows, blocks, k);
    var ws := ValueWrites(rows[k], FeatDicts(blocks), uDict);
    IndicatorCell(ws, u, j);
    if j == FeatDict(blocks, h)[rows[k].values[h]] {
      assert Hits(ws[h], u, j);
    } else {
      forall t | 0 <= t < |ws| ensures !Hits(ws[t], u, j) {
        assert ws[t].col == FeatDict(blocks, t)[rows[k].values[t]];
        if t != h {
          OutsideBlock(blocks, t, h, rows[k].values[t], j);
        }
      }
    }
  }

  /** A value of header `t` never gets a column of another header's block. */
  lemma OutsideBlock(blocks: seq<seq<int>>, t: int, h: int, x: int, j: int)
    requires DistinctBlocks(blocks) && 0 <= t < |blocks| && 0 <= h < |blocks| && t != h
    requires x in FeatDict(blocks, t) && Offset(blocks, h) <= j < Offset(blocks, h + 1)
    ensures FeatDict(blocks, t)[x] != j
  {
    BlockLayout(blocks, t);
    if t < h {
      OffsetMonotone(blocks, t + 1, h);
    } else {
      OffsetMonotone(blocks, h + 1, t);
    }
  }

  /** A user row that no `users.dat` row is mapped to stays all zero. */
  lemma UnlistedUserRowIsZero1m(rows: seq<UserValues>, blocks: seq<seq<int>>, uDict: map<int, int>, i: int, j: int)
    requires BlocksCover(rows, blocks)
    requires forall k :: 0 <= k < |rows| && rows[k].id in uDict ==> uDict[rows[k].id] != i
    ensures CellAfter(Flatten(ValueTable(rows, blocks, uDict)), i, j) == 0.0
  {
    UnmappedRowIsZero(ValueTable(rows, blocks, uDict), Keys(rows, (r: UserValues) => r.id), uDict, i, j);
  }
}
