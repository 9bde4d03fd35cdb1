# Rating-graph preprocessing: split, labels and side information

This project models the deterministic core of `preprocessing.py`, the data
preparation of a graph-convolutional matrix-completion recommender. Four
loaders turn a list of rated (user, item) edges into what the model trains
on:

- `create_trainvaltest_split` cuts the edges, in their given order, into
  train, validation and test slices by ratio.
- `load_data_monti`, `load_official_trainvaltest_split` and
  `load_data_books` keep a training file and a test file. They shuffle only
  the training-file edges, take the first fifth (rounded up) as validation
  and leave the test edges in their original order.

Every loader builds the same things:

- a label grid (`-1` for unrated cells, otherwise the class index of the
  rating);
- the flat indices `u * num_items + v`;
- the three parts (labels, users and items);
- the testing merge, which folds validation into train;
- the training adjacency `label + 1`;
- `class_values`, the sorted distinct ratings.

The MovieLens and Book-Crossing loaders also build side-information
matrices. Each is a zero matrix into which a walk over a metadata file
writes one-hot or multi-hot columns. `preprocess_user_item_features`
stacks a user block and an item block into one feature space.

Modules, in dependency order:

- `Sequences`: permutations, gathering, Python slices, boolean masks.
- `Ratings`: `class_values`, `rating_dict`, the `-1` sentinel.
- `Edges`: pairs, flat indices, `np.where` on a matrix, transposes.
- `Labels`: the label grid as a 2-D array, then flattened.
- `Splits`: the ratio split and the prefix split.
- `Training`: the parts, the testing merge, the adjacency.
- `FeatureBlocks`: padding and identity features.
- `FeatureWrites`: the cell-assignment semantics of the feature walks. The
  last assignment to a cell wins; untouched cells stay 0.
- `MovieLensFeatures`, `BookFeatures`: the side information.
- `Pipelines`: the four loaders composed from the above.

Each feature walk is a method filling an `array2<real>`. It is proved to
leave every cell equal to what a specification table of assignments
(`...Table`) leaves in it. Lemmas then say what each row of that table
holds.

## Model

| member | source | states |
|---|---|---|
| Ratings.ClassValues | Itay_Levinas_209399146/preprocessing.py:196 | `class_values` is strictly increasing and holds exactly the values that occur among the ratings |
| Ratings.RatingDictOf | Itay_Levinas_209399146/preprocessing.py:148 | `rating_dict` knows exactly the ratings that occur, and sends each rating to its position among the class values |
| Ratings.ClassIndexMonotone | Itay_Levinas_209399146/preprocessing.py:148 | a smaller rating always gets a smaller class index |
| Ratings.SentinelIsNoClass | Itay_Levinas_209399146/preprocessing.py:148-150 | no rating is sent to the sentinel `-1`, so an unrated cell can never be taken for a rated one |
| Ratings.SortedListingUnique | Itay_Levinas_209399146/preprocessing.py:196 | two strictly increasing listings of the same set of values are equal, so `np.sort(np.unique(.))` is determined by the set of ratings |
| Edges.FlatIndexBounds | Itay_Levinas_209399146/preprocessing.py:164 | the flat index of a cell of the grid addresses the flattened grid |
| Edges.FlatIndexDivMod | Itay_Levinas_209399146/preprocessing.py:164 | the user and the item are recovered from the flat index by division and remainder |
| Edges.CellOfFlatIndex | Itay_Levinas_209399146/preprocessing.py:152 | every position of the flattened grid is the flat index of exactly the cell its quotient and remainder name |
| Edges.FlatIndexInjective | Itay_Levinas_209399146/preprocessing.py:164 | two cells of the grid with the same flat index are the same cell |
| Edges.FlatIndices | Itay_Levinas_209399146/preprocessing.py:162-164 | `idx_nonzero` has one entry per pair, the pair's flat index |
| Edges.FlatIndicesInRange | Itay_Levinas_209399146/preprocessing.py:164 | every flat index of pairs in the grid addresses the flattened grid |
| Edges.FlatIndicesDistinct | Itay_Levinas_209399146/preprocessing.py:162-164 | the pairs repeat no cell if and only if their flat indices repeat no value |
| Edges.FlatIndexMember | Itay_Levinas_209399146/preprocessing.py:164 | a cell's flat index is among the flat indices of the pairs if and only if the cell is among the pairs |
| Edges.ZipTranspose | Itay_Levinas_209399146/preprocessing.py:162-177 | transposing the pairs and zipping the user and item arrays back gives the pairs again |
| Edges.TransposeZip | Itay_Levinas_209399146/preprocessing.py:162-177 | zipping users and items into pairs and transposing gives back both arrays |
| Edges.TransposeConcat | Itay_Levinas_209399146/preprocessing.py:185-186 | the users and items of train followed by validation are the two transposes concatenated |
| Edges.Where | Itay_Levinas_209399146/preprocessing.py:266 | `np.where(M)` lists exactly the nonzero cells of the matrix, in row-major order |
| Edges.RowMajorSortedDistinct | Itay_Levinas_209399146/preprocessing.py:266 | a row-major listing repeats no cell |
| Edges.ValuesAt | Itay_Levinas_209399146/preprocessing.py:233-235 | `M[np.where(M)]` has one rating per listed cell, the matrix entry at that cell |
| Edges.WhereInGrid | Itay_Levinas_209399146/preprocessing.py:266-270 | the nonzeros of a matrix are distinct cells of the grid, and the ratings read at them are nonzero |
| Labels.FillLabels | Itay_Levinas_209399146/preprocessing.py:150-151 | the filled grid has the given shape and each cell holds its label: the class of the last rating written to it in file order, or `-1` when no edge addresses it |
| Labels.ReshapeAt | Itay_Levinas_209399146/preprocessing.py:152 | `reshape([-1])` puts cell (u, v) at position `u * num_items + v` |
| Labels.LabelGridAt | Itay_Levinas_209399146/preprocessing.py:150-152 | the flattened grid holds at a cell's flat index the label of that cell |
| Labels.SentinelExactlyUnobserved | Itay_Levinas_209399146/preprocessing.py:150-151 | a cell's label is `-1` if and only if no edge rates that cell |
| Labels.ObservedLabel | Itay_Levinas_209399146/preprocessing.py:151 | when no cell is rated twice, each rated cell holds the class index of its own rating |
| Labels.FlatLabelObserved | Itay_Levinas_209399146/preprocessing.py:386-387 | the loaders' assertion `labels[idx_nonzero[i]] == rating_dict[ratings[i]]` holds for every edge when no cell is rated twice |
| Labels.FlatLabelIsAClass | Itay_Levinas_209399146/preprocessing.py:150-152 | the label at a rated position is a valid class index, `0 <= label < len(class_values)` |
| Labels.FlatLabelUnobserved | Itay_Levinas_209399146/preprocessing.py:150-152 | a position that is no edge's flat index holds `-1` |
| Labels.BuildLabels | Itay_Levinas_209399146/preprocessing.py:148-152 | the flattened label grid built through the 2-D array equals the specification grid |
| Splits.CeilDiv | Itay_Levinas_209399146/preprocessing.py:155 | the result is the least count whose multiple reaches the dividend: the ceiling of the quotient |
| Splits.RatioCounts | Itay_Levinas_209399146/preprocessing.py:155-160 | test, validation and train counts add up to the number of edges; the train count is negative for exactly one edge and nonnegative otherwise |
| Splits.RatioSplitCovers | Itay_Levinas_209399146/preprocessing.py:167-173 | train, validation and test concatenated give back the edges in order, for flat indices and pairs alike, including the one-edge case |
| Splits.RatioSplitSizes | Itay_Levinas_209399146/preprocessing.py:155-173 | for any number of edges but one, each part has the size its count says |
| Splits.RatioSplitCoIndexed | Itay_Levinas_209399146/preprocessing.py:162-173 | each part of the ratio split lists the flat indices of its own pairs |
| Splits.PrefixValCount | Itay_Levinas_209399146/preprocessing.py:395 | the validation count never exceeds the number of training-file edges |
| Splits.PrefixSplitSizes | Itay_Levinas_209399146/preprocessing.py:393-428 | validation has `ceil(0.2 * rows)` edges, train has the rest of the training file, and test has exactly the test-file edges (the assertion at line 424) |
| Splits.PrefixSplitKeepsTest | Itay_Levinas_209399146/preprocessing.py:404-428 | the test part is the test file, unshuffled and in its order |
| Splits.PrefixSplitShuffledHead | Itay_Levinas_209399146/preprocessing.py:410-422 | validation followed by train is the training file reordered by the shuffle |
| Splits.PrefixSplitPartition | Itay_Levinas_209399146/preprocessing.py:404-428 | the three parts together hold every edge of both files exactly as often as the files do |
| Splits.PrefixSplitCoIndexed | Itay_Levinas_209399146/preprocessing.py:410-428 | shuffling flat indices and pairs by the same permutation keeps each part's flat indices those of its pairs |
| Splits.PrefixSplitDisjoint | Itay_Levinas_209399146/preprocessing.py:404-428 | when the files repeat no cell, the three parts repeat no cell and are pairwise disjoint |
| Splits.RatioSplitDrawnFrom | Itay_Levinas_209399146/preprocessing.py:167-169 | every flat index of every ratio-split part is an input flat index |
| Splits.PrefixSplitDrawnFrom | Itay_Levinas_209399146/preprocessing.py:404-422 | every flat index of every prefix-split part comes from one of the two files |
| Training.PartOf | Itay_Levinas_209399146/preprocessing.py:175-182 | a part has one label per index and one user and one item per pair |
| Training.TrainPartMerge | Itay_Levinas_209399146/preprocessing.py:184-189 | with `testing`, the returned training labels are those read at the merged indices the adjacency uses, and the users and items are train followed by validation; without it, train alone |
| Training.TrainAdjacency | Itay_Levinas_209399146/preprocessing.py:192-193 | the adjacency array is `label + 1` at every training flat index and 0 elsewhere |
| Training.AdjacencyExactlyAtTrain | Itay_Levinas_209399146/preprocessing.py:192-193 | when training labels are classes, the adjacency is nonzero exactly at the training indices and holds the label plus one there |
| Training.FinishSplit | Itay_Levinas_209399146/preprocessing.py:175-194 | the returned parts are the labels and transposes of each part after the testing merge, and the adjacency is the training adjacency of the merged indices |
| Training.RatioAdjacencyFromEdges | Itay_Levinas_209399146/preprocessing.py:167-193 | with or without the merge, the ratio split's adjacency is built only from input edges |
| Training.PrefixAdjacencyFromTrainFile | Itay_Levinas_209399146/preprocessing.py:404-449 | with or without the merge, the prefix split's adjacency is built only from training-file edges |
| FeatureBlocks.PreprocessUserItemFeatures | Itay_Levinas_209399146/preprocessing.py:60-72 | both padded blocks have `fu + fv` columns and keep their row counts |
| FeatureBlocks.PaddedBlocksSeparate | Itay_Levinas_209399146/preprocessing.py:66-70 | users occupy the first `fu` columns and items the last `fv`; no column is nonzero for both, and dropping the padding gives the blocks back |
| FeatureBlocks.Eye | Itay_Levinas_209399146/preprocessing.py:227 | `np.eye(n)` is an `n x n` matrix |
| FeatureBlocks.EyeOneHot | Itay_Levinas_209399146/preprocessing.py:227-230 | an identity row is 1 exactly on the diagonal and 0 elsewhere |
| FeatureWrites.LastWriteWins | Itay_Levinas_209399146/preprocessing.py:469-473 | after a sequence of cell assignments a cell holds the value of the last assignment to it, or 0 if none touched it |
| FeatureWrites.CellAfterConcat | Itay_Levinas_209399146/preprocessing.py:493-502 | assignments made later override earlier ones cell by cell |
| FeatureWrites.UnmappedRowIsZero | Itay_Levinas_209399146/preprocessing.py:472-473 | a matrix row that no mapped file row targets is all zero |
| FeatureWrites.MappedRowFromItsSource | Itay_Levinas_209399146/preprocessing.py:472-473 | with distinct file ids and an injective id dictionary, a mapped row holds only what its own file row wrote |
| FeatureWrites.Apply | Itay_Levinas_209399146/preprocessing.py:473 | applying a file row's assignments to the array leaves every cell as the extended assignment sequence says |
| FeatureWrites.Enumerate | Itay_Levinas_209399146/preprocessing.py:489 | `enumerate(keys, start)` sends the key at position `i` to `start + i` and uses only the columns `[start, start + len)` |
| FeatureWrites.EnumerateSize | Itay_Levinas_209399146/preprocessing.py:491 | the dictionary of distinct keys has as many entries as keys |
| FeatureWrites.EnumerateInjective | Itay_Levinas_209399146/preprocessing.py:489 | distinct keys get distinct columns |
| MovieLensFeatures.GenreVector | Itay_Levinas_209399146/preprocessing.py:464-473 | a movie's genre vector has the 18 flags after 'unknown', in file order |
| MovieLensFeatures.ItemGenreFeatures | Itay_Levinas_209399146/preprocessing.py:469-473 | the ml_100k item matrix is `num_items x 18` and every cell is what the walk over `u.item` leaves in it |
| MovieLensFeatures.MappedMovieHasItsGenres | Itay_Levinas_209399146/preprocessing.py:471-473 | a mapped movie's row is its own 18 genre flags |
| MovieLensFeatures.UnlistedItemRowIsZero | Itay_Levinas_209399146/preprocessing.py:469-473 | an item row that no listed movie is mapped to stays zero |
| MovieLensFeatures.OccupationListed | Itay_Levinas_209399146/preprocessing.py:480-489 | every user's occupation has a column in `occupation_dict` |
| MovieLensFeatures.UserWritesInBounds | Itay_Levinas_209399146/preprocessing.py:491-502 | a mapped user's three assignments lie inside `num_users x (2 + len(occupation_dict))` |
| MovieLensFeatures.UnknownGender | Itay_Levinas_209399146/preprocessing.py:488-500 | one mapped user with a gender outside `{'M', 'F'}` makes the walk fail |
| MovieLensFeatures.UserFeatures | Itay_Levinas_209399146/preprocessing.py:480-502 | the walk succeeds if and only if every mapped user's gender is known (`KeyError` otherwise); on success the matrix is `num_users x (2 + len(occupations))` and every cell is what the walk leaves in it |
| MovieLensFeatures.MappedUserRow | Itay_Levinas_209399146/preprocessing.py:493-502 | a mapped user's row has the scaled age in column 0, the gender code in column 1, and a 1 exactly at its occupation's column among the rest |
| MovieLensFeatures.UnlistedUserRowIsZero | Itay_Levinas_209399146/preprocessing.py:493-502 | a user row no listed user is mapped to stays zero |
| MovieLensFeatures.GenresListed | Itay_Levinas_209399146/preprocessing.py:514-521 | every genre a movie names has a column in `genres_dict` |
| MovieLensFeatures.GenreWritesInBounds | Itay_Levinas_209399146/preprocessing.py:524-530 | every genre column a mapped movie writes lies inside `num_items x len(genres)` |
| MovieLensFeatures.ItemGenreFeatures1m | Itay_Levinas_209399146/preprocessing.py:524-530 | the ml_1m item matrix is `num_items x len(genres)` and every cell is what the walk over `movies.dat` leaves in it |
| MovieLensFeatures.MappedMovieIsMultiHot | Itay_Levinas_209399146/preprocessing.py:526-530 | a mapped movie's column `j` is 1 exactly when `genres[j]` is one of its genres, and 0 otherwise |
| MovieLensFeatures.GenreColumnOf | Itay_Levinas_209399146/preprocessing.py:521 | `genres_dict` sends a genre to column `j` if and only if it is `genres[j]` |
| MovieLensFeatures.BlockValues | Itay_Levinas_209399146/preprocessing.py:545 | each header's value list repeats no value and contains every value of its column |
| MovieLensFeatures.BlockValuesAreUnique | Itay_Levinas_209399146/preprocessing.py:545 | the list is sorted and holds only values of the column: it is `np.unique` |
| MovieLensFeatures.BuildFeatDicts | Itay_Levinas_209399146/preprocessing.py:541-550 | the `cntr` loop builds one dictionary per header numbered from the running count, and `num_feats` is the sum of their sizes |
| MovieLensFeatures.BlockLayout | Itay_Levinas_209399146/preprocessing.py:541-550 | header `h` owns the contiguous columns `[offset(h), offset(h+1))`, one per value in `np.unique` order, inside `num_feats` |
| MovieLensFeatures.BlocksDisjoint | Itay_Levinas_209399146/preprocessing.py:541-548 | every column of an earlier header lies left of every column of a later header |
| MovieLensFeatures.BlockKeysOccur | Itay_Levinas_209399146/preprocessing.py:545-546 | a header's dictionary knows only values that occur in its column |
| MovieLensFeatures.NumFeatsIsSumOfBlocks | Itay_Levinas_209399146/preprocessing.py:550 | `num_feats` is the sum of the four `np.unique` sizes |
| MovieLensFeatures.ValueWritesInBounds | Itay_Levinas_209399146/preprocessing.py:552-557 | every column a mapped user writes lies inside `num_users x num_feats` |
| MovieLensFeatures.UserFeatures1m | Itay_Levinas_209399146/preprocessing.py:536-557 | the ml_1m user matrix is `num_users x num_feats` and every cell is what the walk over `users.dat` leaves in it |
| MovieLensFeatures.OneHotPerBlock | Itay_Levinas_209399146/preprocessing.py:552-557 | in each header's block a mapped user's row is 1 exactly at the column of its own value under that header |
| MovieLensFeatures.BlockColumnOf | Itay_Levinas_209399146/preprocessing.py:546 | column `j` of header `h`'s block belongs to the value at position `j - offset(h)` of the block, and to no other value |
| MovieLensFeatures.OutsideBlock | Itay_Levinas_209399146/preprocessing.py:546-557 | a value of one header never gets a column of another header's block |
| MovieLensFeatures.UnlistedUserRowIsZero1m | Itay_Levinas_209399146/preprocessing.py:552-557 | a user row no listed user is mapped to stays zero |
| BookFeatures.AuthorDict | Itay_Levinas_209399146/preprocessing.py:794 | `author_dict` sends the author at position `i` of the set order to `start + i` |
| BookFeatures.ItemBookFeatures | Itay_Levinas_209399146/preprocessing.py:794-808 | the walk raises `IndexError` exactly when some mapped book's author column falls outside the `1 + len(author_dict)` columns; otherwise the matrix is `num_items x (1 + len(authors))` and every cell is what the walk leaves in it |
| BookFeatures.AsWrittenFitsIffLastAuthorUnused | Itay_Levinas_209399146/preprocessing.py:794-808 | numbered from 2 as written, the walk stays in bounds if and only if no mapped book is by the last author of the set order |
| BookFeatures.AsWrittenSingleBookOverflows | Itay_Levinas_209399146/preprocessing.py:794-808 | one mapped book by the only author already overflows as written |
| BookFeatures.CorrectedAuthorsFit | Itay_Levinas_209399146/preprocessing.py:794-808 | numbered from 1, every mapped book's author column fits |
| BookFeatures.MappedBookRow | Itay_Levinas_209399146/preprocessing.py:800-808 | numbered from 1, a mapped book's row has its scaled year in column 0 and a 1 exactly at its author's column |
| BookFeatures.UnlistedBookRowIsZero | Itay_Levinas_209399146/preprocessing.py:800-808 | a book row no listed book is mapped to stays zero |
| BookFeatures.UserAgeFeatures | Itay_Levinas_209399146/preprocessing.py:816-820 | the user matrix is `num_users x 1` and every cell is what the walk over the users file leaves in it |
| BookFeatures.MappedBookUserRow | Itay_Levinas_209399146/preprocessing.py:817-820 | a mapped user's cell is its scaled age |
| BookFeatures.UnlistedBookUserIsZero | Itay_Levinas_209399146/preprocessing.py:816-820 | a user no listed user is mapped to stays zero |
| Sequences.MaskIndices | Itay_Levinas_209399146/preprocessing.py:690-693 | `s[mask]` / `s[~mask]` select exactly the positions where the mask has the wanted value, in increasing order, as many as the mask says |
| Sequences.MaskOrderIsPermutation | Itay_Levinas_209399146/preprocessing.py:692-700 | rows outside the mask followed by rows in the mask are a permutation of the file's rows |
| Sequences.GatherPermutation | Itay_Levinas_209399146/preprocessing.py:414-415 | reordering by a permutation keeps every element exactly as often |
| Pipelines.FinishLoad | Itay_Levinas_209399146/preprocessing.py:381-451 | the returned class values are the sorted distinct ratings, and the split output is that of the label grid for the given split |
| Pipelines.CreateTrainValTestSplit | Itay_Levinas_209399146/preprocessing.py:119-199 | every index of the ratio split addresses the grid; with no edges at all the loader fails with the `ValueError` of unpacking an empty one-dimensional array (line 175), and otherwise the output is the ratio split of the edges read against the label grid, with `class_values` |
| Pipelines.AdjacencyMarksTraining | Itay_Levinas_209399146/preprocessing.py:192-193 | an adjacency built from observed flat indices is nonzero exactly at those indices and holds a value in `[1, len(class_values)]` there |
| Pipelines.RatioAdjacencyMarksTraining | Itay_Levinas_209399146/preprocessing.py:167-193 | for the ratio split, the adjacency is nonzero exactly at the (merged) training indices, holding class plus one |
| Pipelines.FileAdjacencyMarksTraining | Itay_Levinas_209399146/preprocessing.py:404-449 | for the file split, the adjacency is nonzero exactly at the (merged) training indices, holding class plus one |
| Pipelines.TestEdgesNotInAdjacency | Itay_Levinas_209399146/preprocessing.py:404-449 | when no cell is rated in both files, no test-file edge's flat index reaches the adjacency, with or without the merge |
| Pipelines.MontiRatings | Itay_Levinas_209399146/preprocessing.py:233-235 | there is one rating per nonzero of `M` |
| Pipelines.LoadDataMonti | Itay_Levinas_209399146/preprocessing.py:202-324 | the loader fails exactly when `Otraining` or `Otest` marks no edge: the concatenation `ValueError` (line 280) when one of them is empty, the unpacking `ValueError` (line 292) when both are; otherwise the side information is chosen per dataset (identity on the missing side) and the split is the file split of `np.where(Otraining)` and `np.where(Otest)` read against the label grid of `M`, with `class_values` of `M`'s ratings |
| Pipelines.MontiEdges | Itay_Levinas_209399146/preprocessing.py:251-286 | the nonzeros of `M` are distinct cells of the grid, the split addresses the grid, and the test part has one entry per test-mask nonzero (the assertion at line 286) |
| Pipelines.MontiLabelsObserved | Itay_Levinas_209399146/preprocessing.py:254-255 | the labels assertion of the Monti loader holds for every rating matrix |
| Pipelines.MontiAdjacencyMarksTraining | Itay_Levinas_209399146/preprocessing.py:266-311 | when every training-mask cell is rated in `M`, the adjacency is nonzero exactly at the training positions |
| Pipelines.TrainMaskRated | Itay_Levinas_209399146/preprocessing.py:266 | a training mask inside the support of `M` lists only edges of `M` |
| Pipelines.LabelsAssertionsHold | Itay_Levinas_209399146/preprocessing.py:386-402 | when no cell is rated twice, both label assertions of the file loaders hold for every edge |
| Pipelines.FileLoad | Itay_Levinas_209399146/preprocessing.py:378-451 | the labels assertions hold and the test part has exactly the test-file edges; the split fails with the unpacking `ValueError` (line 430) exactly when both files are empty, and otherwise the output is the file split read against the label grid of both files |
| Pipelines.LoadOfficialTrainValTestSplit | Itay_Levinas_209399146/preprocessing.py:327-568 | an empty `u1.base` or `u1.test` fails first: the concatenation `ValueError` (line 363) when one is empty, the `IndexError` of reading column 0 (line 365) when both are; with both files non-empty, an unknown dataset raises `ValueError` and ml_100k fails exactly on an unknown gender; otherwise the split is the file split and each feature matrix has the shape and cells of its walk |
| Pipelines.BooksReorder | Itay_Levinas_209399146/preprocessing.py:688-700 | train rows followed by test rows are a permutation of the ratings file; the test part has as many rows as the mask marks; distinct rows stay distinct |
| Pipelines.ClassValuesOfReorder | Itay_Levinas_209399146/preprocessing.py:788 | `class_values` do not depend on the order of the ratings |
| Pipelines.LoadDataBooks | Itay_Levinas_209399146/preprocessing.py:678-829 | the loader fails exactly when the test mask selects no row or every row: the concatenation `ValueError` (line 700) when one side is empty, and the `TypeError` of `~mask` (line 692) when the ratings file has no row, because the mask built at line 690 is then an empty float array; otherwise the class values are those of the original ratings file, the split is the file split of the unmasked and masked rows; the book matrix is `num_items x (1 + len(authors))` and the user matrix `num_users x 1`, each holding what its walk writes (authors numbered from 1) |

## Left out

- File and network I/O (`pd.read_csv`, `.mat` files, pickles, downloads, `print`) is left out. Every loader takes the parsed contents of its files as parameters.
- `np.random.seed`, `np.random.shuffle` and `np.random.choice` are parameters. The shuffle is any permutation `perm` of the training-file rows, and the Book-Crossing test selection is any boolean mask.
- Shuffling `range(n)` in place works only when `range` returns a list, as in Python 2. The model follows that behaviour.
- `map_data` is left out. The loaders take pairs already mapped to `[0, num_users) x [0, num_items)`, plus the id dictionaries `u_dict` and `v_dict`, whose values are required to lie below the grid size.
- Ratings are modelled as integers. Age and year scaling (`/ age_max`, `/ year_max`) is floating point and is taken as an input already divided.
- `np.ceil(n * 0.1)`, `np.ceil(n * 0.9 * 0.05)` and `np.ceil(n * 0.2)` are modelled as exact integer ceilings. Floating-point rounding of those products is not modelled.
- The iteration order of Python sets (occupations, ml_1m genres, book authors) is a parameter. It may be any listing of the set without repeats.
- ml_1m user columns (gender, age, occupation, zip-code) are modelled as integer codes. `np.unique` sorts strings and numbers alike; only the order matters here.
- `create_trainvaltest_split` calls `load_data` for its edges and features and can save or read the split from pickles. `load_data` is not part of this model: the edges are inputs, and the features it returns are passed through unchanged, so they are not modelled.
- The `datasplit_from_file` path and the `testing` printouts are left out because they are I/O.
- The Monti loader's options `flixster`, `douban` and `yahoo_music` are a datatype. The unknown-dataset branch is left out: the source has no branch for it, so it fails on the missing data file or on the unbound `u_features`.
- `Pipelines.MontiAdjacencyMarksTraining`: requires every `Otraining` nonzero to be a nonzero of `M`. The source never checks this; for a cell outside, the adjacency holds 0 (label `-1` plus one).
- `Pipelines.FileLoad`, `Pipelines.LoadOfficialTrainValTestSplit`, `Pipelines.LoadDataBooks`: require that no cell is rated twice. With a repeated cell, the source's own label assertions can raise `AssertionError`, and that failure is not modelled.
- `Labels.LabelAt`, `Labels.FillLabels`: a cell that the edge list addresses twice keeps the label of the later edge. This is the model's choice: NumPy does not specify which value a repeated index keeps in the fancy-index assignment `labels[u_nodes, v_nodes] = ...` (line 151).
- `BookFeatures.ItemBookFeatures`: on `IndexError` the partial matrix is discarded, because the exception ends the loader and nothing returns it.
- `BookFeatures.ItemBookFeatures`, `Pipelines.LoadDataBooks`: assume that the ISBN of a row of the books file compares equal to the `v_dict` key of that book. `v_dict` is keyed by the strings of `data_array[:, 1].astype(np.str)` (lines 682 and 703); the ISBN column of the edited books file holds the integer row numbers written by `filter_by_features` (line 602) and copied by `edit_book_files` (lines 670-673), and `pd.read_csv` may read them back as numbers, in which case the lookup at line 804 never matches and the book matrix stays zero. `map_data` is not part of this model, so the mapped keys are taken as given.
- `Pipelines.LoadDataBooks`: for an empty ratings file, a NumPy older than the one the model follows already fails in `np.random.choice` at line 689; the model gives the `TypeError` of line 692.
- `Pipelines.LoadDataBooks`: models the corrected author numbering, starting at column 1; the numbering as written is in `BookFeatures` and under Findings.
- `normalize_features`, `globally_normalize_bipartite_adjacency`, `sparse_to_tuple` and the conversions to `scipy.sparse` are left out. The CSR matrices are modelled as dense arrays with the same cells.
- `filter_by_features` and `edit_book_files` are left out. They rewrite the Book-Crossing files on disk, which is I/O outside the split.

## Findings

| source | as written | input that shows it | evidently intended | confidence | as-written member | corrected member |
|---|---|---|---|---|---|---|
| Itay_Levinas_209399146/preprocessing.py:794-808 | author columns are numbered `enumerate(..., start=2)`, but the matrix has `1 + len(author_dict)` columns, so the last author of the set order gets the column just past the end and writing it raises `IndexError` | one book, ISBN "0" by author "a", mapped to item 0: `author_dict = {"a": 2}`, the matrix has 2 columns, and the write to column 2 is out of bounds. The overflow is reached only when a book's ISBN passes the `v_dict` lookup at line 804 (see the ISBN line under Left out) | number the authors from 1, so column 0 is the year and columns `1 .. len(authors)` the author indicator | not executed | BookFeatures.AsWrittenSingleBookOverflows | BookFeatures.CorrectedAuthorsFit |
