/** Side information of the Book-Crossing dataset. Books get their scaled
    year of publication in column 0 and a one-hot author indicator; users get
    their scaled age in their single column. As in the MovieLens loaders, a
    file row is written only when the rating dictionary knows its id.

    The author columns are numbered with `enumerate(authors, start=2)` while
    the matrix has only `1 + len(authors)` columns, so the last author of
    the set order is given the column just past the end. The model keeps the
    numbering start as a parameter of the walk: with 2, as written, the walk
    raises `IndexError` exactly when a mapped book has that last author; with
    1 every author column fits and each mapped book's row is its year
    followed by its author's indicator. */
module BookFeatures {
  import opened Sequences
  import opened FeatureWrites

  // ---------------------------------------------------------------- books

  /** A row of the filtered books file: ISBN, year already divided by the latest year, author. */
  datatype BookRow = BookRow(isbn: string, scaledYear: real, author: string)

  const YearColumn: nat := 0

  /** `enumerate(..., start=2)` as written. */
  const AsWrittenFirstAuthorColumn: nat := 2

  /** The start that fits `num_book_feats = 1 + len(author_dict)`. */
  const FirstAuthorColumn: nat := 1

  /** `set(book_df['Book-Author'].values.tolist())`. */
  function AuthorSet(rows: seq<BookRow>): set<string>
  {
    SetOf(seq(|rows|, k requires 0 <= k < |rows| => rows[k].author))
  }

  /** `authors` is the iteration order of the author set. */
  predicate IsAuthorOrder(rows: seq<BookRow>, authors: seq<string>)
  {
    IsSetOrder(authors, AuthorSet(rows))
  }

  /** `author_dict`, numbering the authors from `start`. */
  function AuthorDict(authors: seq<string>, start: int): map<string, int>
    requires Distinct(authors)
  {
    Enumerate(authors, start)
  }

  /** `num_book_feats`. */
  function BookWidth(authors: seq<string>): nat
  {
    1 + |authors|
  }

  lemma AuthorListed(rows: seq<BookRow>, authors: seq<string>, start: int, k: int)
    requires IsAuthorOrder(rows, authors) && 0 <= k < |rows|
    ensures rows[k].author in AuthorDict(authors, start)
  {
    var s := seq(|rows|, k requires 0 <= k < |rows| => rows[k].author);
    SetOfHas(s, k);
    var i :| 0 <= i < |authors| && authors[i] == rows[k].author;
  }

  /** The author column of a book lies inside the `1 + len(authors)` columns. */
  predicate AuthorFits(r: BookRow, authors: seq<string>, start: int)
    requires Distinct(authors)
  {
    r.author in AuthorDict(authors, start) && 0 <= AuthorDict(authors, start)[r.author] < BookWidth(authors)
  }

  /** Every mapped book among the first `n` rows has an author column that fits. */
  predicate AuthorsFitBefore(rows: seq<BookRow>, authors: seq<string>, start: int, vDict: map<string, int>, n: int)
    requires Distinct(authors)
  {
    forall i :: 0 <= i < n && i < |rows| && rows[i].isbn in vDict ==> AuthorFits(rows[i], authors, start)
  }

  /** No assignment of the walk falls outside the matrix. */
  predicate AuthorsFit(rows: seq<BookRow>, authors: seq<string>, start: int, vDict: map<string, int>)
    requires Distinct(authors)
  {
    AuthorsFitBefore(rows, authors, start, vDict, |rows|)
  }

  /** The two assignments of a mapped book: its year, then its author's indicator. */
  function BookWrites(r: BookRow, authorDict: map<string, int>, vDict: map<string, int>): (ws: seq<Write>)
    requires r.author in authorDict
    ensures forall w :: w in ws ==> r.isbn in vDict && w.row == vDict[r.isbn]
  {
    if r.isbn in vDict then
      var v := vDict[r.isbn];
      [Write(v, YearColumn, r.scaledYear), Write(v, authorDict[r.author], 1.0)]
    else []
  }

  /** The assignments of the whole walk over the books file, row by row. */
  function BookTable(rows: seq<BookRow>, authors: seq<string>, start: int, vDict: map<string, int>): (wss: seq<seq<Write>>)
    requires IsAuthorOrder(rows, authors)
    ensures WritesTargetRow(wss, Keys(rows, (r: BookRow) => r.isbn), vDict)
    ensures forall k :: 0 <= k < |rows| ==>
      (AuthorListed(rows, authors, start, k); wss[k] == BookWrites(rows[k], AuthorDict(authors, start), vDict))
  {
    var wss := seq(|rows|, k requires 0 <= k < |rows| =>
      AuthorListed(rows, authors, start, k); BookWrites(rows[k], AuthorDict(authors, start), vDict));
    var ids := Keys(rows, (r: BookRow) => r.isbn);
    assert WritesTargetRow(wss, ids, vDict) by {
      forall m, w | 0 <= m < |wss| && w in wss[m] ensures ids[m] in vDict && w.row == vDict[ids[m]] {
        AuthorListed(rows, authors, start, m);
        assert wss[m] == BookWrites(rows[m], AuthorDict(authors, start), vDict);
      }
    }
    wss
  }

  /** The book feature matrix, `numItems x (1 + len(authors))`, with the author
      columns numbered from `start`. An author column past the end raises
      `IndexError`, which discards the matrix. */
  method ItemBookFeatures(numItems: nat, rows: seq<BookRow>, authors: seq<string>, start: int, vDict: map<string, int>)
    returns (r: Result<array2<real>>)
    requires IsAuthorOrder(rows, authors) && ValuesBelow(vDict, numItems)
    ensures r.Success? <==> AuthorsFit(rows, authors, start, vDict)
    ensures r.Failure? ==> r.error == "IndexError: author column"
    ensures r.Success? ==>
      r.value.Length0 == numItems && r.value.Length1 == BookWidth(authors) &&
      Holds(r.value, Flatten(BookTable(rows, authors, start, vDict)))
  {
    var authorDict := AuthorDict(authors, start);
    EnumerateSize(authors, start);
    var numFeats := 1 + |authorDict|;
    var feat := new real[numItems, numFeats]((i, j) => 0.0);
    WalkStart(feat, BookTable(rows, authors, start, vDict));
    var fit := WalkBooks(feat, rows, authors, start, authorDict, vDict);
    if !fit {
      return Failure("IndexError: author column");
    }
    r := Success(feat);
  }

  /** The loop over the books file, on a matrix of zeros; it stops at the first
      mapped book whose author column falls outside the matrix. */
  method WalkBooks(feat: array2<real>, rows: seq<BookRow>, authors: seq<string>, start: int,
                   authorDict: map<string, int>, vDict: map<string, int>) returns (fit: bool)
    requires IsAuthorOrder(rows, authors) && authorDict == AuthorDict(authors, start)
    requires ValuesBelow(vDict, feat.Length0) && feat.Length1 == BookWidth(authors)
    requires Holds(feat, Flatten(BookTable(rows, authors, start, vDict)[..0]))
    modifies feat
    ensures fit <==> AuthorsFit(rows, authors, start, vDict)
    ensures fit ==> Holds(feat, Flatten(BookTable(rows, authors, start, vDict)))
  {
    ghost var table := BookTable(rows, authors, start, vDict);
    var k := 0;
    while k < |rows|
      invariant 0 <= k <= |rows|
      invariant AuthorsFitBefore(rows, authors, start, vDict, k)
      invariant Holds(feat, Flatten(table[..k]))
    {
      AuthorListed(rows, authors, start, k);
      if rows[k].isbn in vDict && !(0 <= authorDict[rows[k].author] < feat.Length1) {
        AuthorMisfit(rows, authors, start, vDict, k);
        return false;
      }
      WriteBookRow(feat, rows, authors, start, authorDict, vDict, k);
      k := k + 1;
    }
    WalkEnd(table);
    fit := true;
  }

  /** A mapped book whose author column fits writes inside the `numItems x (1 + len(authors))` matrix. */
  lemma BookWritesInBounds(r: BookRow, authors: seq<string>, start: int, authorDict: map<string, int>,
                           vDict: map<string, int>, numItems: int)
    requires Distinct(authors) && authorDict == AuthorDict(authors, start) && ValuesBelow(vDict, numItems)
    requires r.isbn in vDict && AuthorFits(r, authors, start)
    ensures InBounds(BookWrites(r, authorDict, vDict), numItems, BookWidth(authors))
  {
  }

  /** One mapped book whose author column does not fit is enough for the `IndexError`. */
  lemma AuthorMisfit(rows: seq<BookRow>, authors: seq<string>, start: int, vDict: map<string, int>, k: int)
    requires Distinct(authors) && 0 <= k < |rows| && rows[k].isbn in vDict && !AuthorFits(rows[k], authors, start)
    ensures !AuthorsFit(rows, authors, start, vDict)
  {
  }

  /** File row `k` of the books file: the two assignments of a mapped book whose
      author column fits, nothing for an unmapped one. */
  method WriteBookRow(feat: array2<real>, rows: seq<BookRow>, authors: seq<string>, start: int,
                      authorDict: map<string, int>, vDict: map<string, int>, k: int)
    requires IsAuthorOrder(rows, authors) && authorDict == AuthorDict(authors, start)
    requires 0 <= k < |rows| && ValuesBelow(vDict, feat.Length0) && feat.Length1 == BookWidth(authors)
    requires AuthorsFitBefore(rows, authors, start, vDict, k)
    requires rows[k].isbn in vDict ==> AuthorFits(rows[k], authors, start)
    requires Holds(feat, Flatten(BookTable(rows, authors, start, vDict)[..k]))
    modifies feat
    ensures AuthorsFitBefore(rows, authors, start, vDict, k + 1)
    ensures Holds(feat, Flatten(BookTable(rows, authors, start, vDict)[..k + 1]))
  {
    AuthorListed(rows, authors, start, k);
    if rows[k].isbn in vDict {
      BookWritesInBounds(rows[k], authors, start, authorDict, vDict, feat.Length0);
      ApplyRow(feat, BookWrites(rows[k], authorDict, vDict), BookTable(rows, authors, start, vDict), k);
    } else {
      SkipRow(BookTable(rows, authors, start, vDict), k);
    }
  }

  /** As written (`start=2`) the walk stays inside the matrix exactly when no
      mapped book is by the last author of the set order, whose column
      `1 + len(authors)` is one past the end. */
  lemma AsWrittenFitsIffLastAuthorUnused(rows: seq<BookRow>, authors: seq<string>, vDict: map<string, int>)
    requires IsAuthorOrder(rows, authors)
    ensures AuthorsFit(rows, authors, AsWrittenFirstAuthorColumn, vDict) <==>
      forall k :: 0 <= k < |rows| && rows[k].isbn in vDict ==> rows[k].author != authors[|authors| - 1]
  {
    var d := AuthorDict(authors, AsWrittenFirstAuthorColumn);
    forall k | 0 <= k < |rows| && rows[k].isbn in vDict
      ensures AuthorFits(rows[k], authors, AsWrittenFirstAuthorColumn) <==> rows[k].author != authors[|authors| - 1]
    {
      AuthorListed(rows, authors, AsWrittenFirstAuthorColumn, k);
      EnumerateKeys(authors, AsWrittenFirstAuthorColumn, rows[k].author);
      var i :| 0 <= i < |authors| && authors[i] == rows[k].author;
      assert d[rows[k].author] == 2 + i;
    }
  }

  /** One book, by the only author, listed in the ratings: as written the walk
      raises `IndexError`. */
  lemma AsWrittenSingleBookOverflows()
    ensures IsAuthorOrder([BookRow("0", 1.0, "a")], ["a"])
    ensures !AuthorsFit([BookRow("0", 1.0, "a")], ["a"], AsWrittenFirstAuthorColumn, map["0" := 0])
  {
    var rows := [BookRow("0", 1.0, "a")];
    var authors := ["a"];
    var a := authors[0];
    assert a == "a";
    assert AuthorSet(rows) == {"a"} by {
      assert seq(|rows|, k requires 0 <= k < |rows| => rows[k].author) == ["a"];
      assert SetOf(["a"]) == SetOf([]) + {"a"};
    }
    assert AuthorDict(authors, AsWrittenFirstAuthorColumn)[a] == 2;
  }

  /** Numbered from 1, every author column of every book fits. */
  lemma CorrectedAuthorsFit(rows: seq<BookRow>, authors: seq<string>, vDict: map<string, int>)
    requires IsAuthorOrder(rows, authors)
    ensures AuthorsFit(rows, authors, FirstAuthorColumn, vDict)
  {
    forall k | 0 <= k < |rows| && rows[k].isbn in vDict ensures AuthorFits(rows[k], authors, FirstAuthorColumn) {
      AuthorListed(rows, authors, FirstAuthorColumn, k);
    }
  }

  /** Numbered from 1, a mapped book's row holds its scaled year in column 0
      and, among the author columns, a 1 exactly in its author's column. */
  lemma MappedBookRow(rows: seq<BookRow>, authors: seq<string>, vDict: map<string, int>, k: int, j: int)
    requires IsAuthorOrder(rows, authors) && Distinct(Keys(rows, (r: BookRow) => r.isbn)) && Injective(vDict)
    requires 0 <= k < |rows| && rows[k].isbn in vDict && 0 <= j < BookWidth(authors)
    ensures var cell := CellAfter(Flatten(BookTable(rows, authors, FirstAuthorColumn, vDict)), vDict[rows[k].isbn], j);
      (j == YearColumn ==> cell == rows[k].scaledYear) &&
      (j >= FirstAuthorColumn ==> cell == if authors[j - FirstAuthorColumn] == rows[k].author then 1.0 else 0.0)
  {
    var v := vDict[rows[k].isbn];
    var d := AuthorDict(authors, FirstAuthorColumn);
    AuthorListed(rows, authors, FirstAuthorColumn, k);
    MappedRowFromItsSource(BookTable(rows, authors, FirstAuthorColumn, vDict), Keys(rows, (r: BookRow) => r.isbn), vDict, k, j);
    var y, a := Write(v, YearColumn, rows[k].scaledYear), Write(v, d[rows[k].author], 1.0);
    assert BookWrites(rows[k], d, vDict) == [y, a];
    CellAfterTwo(y, a, v, j);
    if j >= FirstAuthorColumn {
      assert d[authors[j - FirstAuthorColumn]] == j;
    }
  }

  /** A book row that no book of the file is mapped to stays all zero. */
  lemma UnlistedBookRowIsZero(rows: seq<BookRow>, authors: seq<string>, vDict: map<string, int>, i: int, j: int)
    requires IsAuthorOrder(rows, authors)
    requires forall k :: 0 <= k < |rows| && rows[k].isbn in vDict ==> vDict[rows[k].isbn] != i
    ensures CellAfter(Flatten(BookTable(rows, authors, FirstAuthorColumn, vDict)), i, j) == 0.0
  {
    UnmappedRowIsZero(BookTable(rows, authors, FirstAuthorColumn, vDict), Keys(rows, (r: BookRow) => r.isbn), vDict, i, j);
  }

  // ---------------------------------------------------------------- users

  /** A row of the filtered users file: id and age already divided by the largest age. */
  datatype BookUser = BookUser(id: int, scaledAge: real)

  const AgeColumn: nat := 0

  /** `u_features[u_dict[u_id], 0] = age` when the user is mapped. */
  function AgeWrites(r: BookUser, uDict: map<int, int>): (ws: seq<Write>)
    ensures forall w :: w in ws ==> r.id in uDict && w.row == uDict[r.id]
  {
    if r.id in uDict then [Write(uDict[r.id], AgeColumn, r.scaledAge)] else []
  }

  function AgeTable(rows: seq<BookUser>, uDict: map<int, int>): (wss: seq<seq<Write>>)
    ensures WritesTargetRow(wss, Keys(rows, (r: BookUser) => r.id), uDict)
    ensures forall k :: 0 <= k < |rows| ==> wss[k] == AgeWrites(rows[k], uDict)
  {
    seq(|rows|, k requires 0 <= k < |rows| => AgeWrites(rows[k], uDict))
  }

  /** The user feature matrix, `numUsers x 1`. */
  method UserAgeFeatures(numUsers: nat, rows: seq<BookUser>, uDict: map<int, int>) returns (feat: array2<real>)
    requires ValuesBelow(uDict, numUsers)
    ensures feat.Length0 == numUsers && feat.Length1 == 1
    ensures Holds(feat, Flatten(AgeTable(rows, uDict)))
  {
    feat := new real[numUsers, 1]((i, j) => 0.0);
    ghost var table := AgeTable(rows, uDict);
    WalkStart(feat, table);
    var k := 0;
    while k < |rows|
      invariant 0 <= k <= |rows|
      invariant Holds(feat, Flatten(table[..k]))
    {
      WriteAgeRow(feat, rows, uDict, k);
      k := k + 1;
    }
    WalkEnd(table);
  }

  /** File row `k` of the users file: the age of a mapped user, nothing otherwise. */
  method WriteAgeRow(feat: array2<real>, rows: seq<BookUser>, uDict: map<int, int>, k: int)
    requires 0 <= k < |rows| && ValuesBelow(uDict, feat.Length0) && feat.Length1 == 1
    requires Holds(feat, Flatten(AgeTable(rows, uDict)[..k]))
    modifies feat
    ensures Holds(feat, Flatten(AgeTable(rows, uDict)[..k + 1]))
  {
    if rows[k].id in uDict {
      ApplyRow(feat, AgeWrites(rows[k], uDict), AgeTable(rows, uDict), k);
    } else {
      SkipRow(AgeTable(rows, uDict), k);
    }
  }

  /** A mapped user's single cell is its scaled age. */
  lemma MappedBookUserRow(rows: seq<BookUser>, uDict: map<int, int>, k: int)
    requires Distinct(Keys(rows, (r: BookUser) => r.id)) && Injective(uDict)
    requires 0 <= k < |rows| && rows[k].id in uDict
    ensures CellAfter(Flatten(AgeTable(rows, uDict)), uDict[rows[k].id], AgeColumn) == rows[k].scaledAge
  {
    var u := uDict[rows[k].id];
    MappedRowFromItsSource(AgeTable(rows, uDict), Keys(rows, (r: BookUser) => r.id), uDict, k, AgeColumn);
    var w := Write(u, AgeColumn, rows[k].scaledAge);
    assert AgeWrites(rows[k], uDict) == [] + [w];
    CellAfterSnoc([], w, u, AgeColumn);
  }

  /** A user row that no user of the file is mapped to stays zero. */
  lemma UnlistedBookUserIsZero(rows: seq<BookUser>, uDict: map<int, int>, i: int)
    requires forall k :: 0 <= k < |rows| && rows[k].id in uDict ==> uDict[rows[k].id] != i
    ensures CellAfter(Flatten(AgeTable(rows, uDict)), i, AgeColumn) == 0.0
  {
    UnmappedRowIsZero(AgeTable(rows, uDict), Keys(rows, (r: BookUser) => r.id), uDict, i, AgeColumn);
  }
}
