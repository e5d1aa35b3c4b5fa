# Abundance-table preprocessing, modelled in Dafny

This project models the preprocessing core of an MGnify wastewater-study
pipeline (`Scripts/Functions_preprocessing.py`). That core does three things:

- it picks which taxonomy abundance file of a study to read (`load_abund_table`);
- it cleans a phylum-level table on its `phylum` column (`preprocess_abund_table_phylum`);
- it turns a lineage-per-row table into a table aggregated at a chosen
  taxonomic rank (`preprocess_abund_table`).

`preprocess_abund_table` runs these steps in order:

1. Split the `;`-separated lineage into Root plus seven rank columns (Kingdom to Species).
2. Drop the column-sum row.
3. Strip the `x__` prefix and the brackets from every rank cell.
4. Keep only the rows whose cell at the chosen rank is a proper taxon name.
5. Group the rows by the ranks down to the chosen one and sum the counts.

The modules follow the structure of the script:

- `Text`: Python's `str.split`, `sep.join`, `str.replace` of one character, substring search and `isspace`.
- `Seqs`: the order-preserving boolean-mask selection (`Filter`) and lexicographic order.
- `Tables`: the rows of a table and the totals of its count columns.
- `FileSelection`: the filename predicate and the first-match choice of `load_abund_table`.
- `Lineage`: the lineage split, column naming, sum-row drop and cell stripping. The stripping is
  modelled twice: as a function on values, and as an in-place `method` over an `array` (the
  column-by-column loop of the script). The method is proved equal to the function.
- `TaxonFilter`: the two regular expressions, modelled as Python's `re` reads them. `str.contains`
  searches anywhere. `str.match` is anchored at the start, and its `$` also accepts a text that
  ends in one newline. Both patterns are then proved equal to plain character predicates.
  The module also holds the row filters of both cleaning functions.
- `Aggregation`: `groupby(...).sum()`, modelled as insertion into a key-sorted list of groups,
  under Python's order on strings and tuples.
- `Preprocessing`: the two cleaning entry points with their error paths.
- `Scenarios`: a worked example of the filter and the merge at the phylum.

Three details of the code that a reader might not expect:

- The code tests `mixed` as a substring (`str.contains('mixed')`), not as an exact match.
  It does so only in `preprocess_abund_table`; the phylum variant has no `mixed` test.
- When the phylum table is wanted, the code requires `phylum_taxonomy` in the path. It does not
  exclude `_LSU_` paths.
- `fillna('')` is applied only to the chosen rank column, and only after the `NaN` rows of that
  column were already dropped. Other columns are not filled.

Three facts about the filters follow from the proofs (`KeepTaxonIff`):

- The first alternative of the unofficial-name pattern, `^[A-Z]{2,}[0-9-]*$`, is subsumed by the
  third, `^[A-Z]{2,}`.
- The blank test and the `unclassified` test never reject a name that the proper-name pattern and
  the lower-case test would keep.
- The two filters differ only in the `mixed` test (`KeepTaxonVersusPhylum`).

A file with no data rows (only the column-sum row) makes `preprocess_abund_table` raise, and the
model returns the error `NoDataRows`. The failure comes from pandas, not from the script's text: the
blank test on line 85 then yields an empty column of object type, pandas reads it as a selection of
no columns, and the lookup of `tax_rank` on line 88 finds no column.

## Model

| member | source | states |
|---|---|---|
| FileSelection.FirstCandidate | Scripts/Functions_preprocessing.py:10-19 | the comprehension's result is empty exactly when no path is wanted; otherwise its head is the first wanted path of the listing |
| FileSelection.SelectFile | Scripts/Functions_preprocessing.py:10-22 | no file (`None`) exactly when no path passes the phylum or non-phylum/non-LSU test; otherwise the first path, in listing order, that passes |
| FileSelection.SelectedFileMarkers | Scripts/Functions_preprocessing.py:10-15 | the chosen path names `phylum_taxonomy` when the phylum table is wanted, and names neither `_phylum_` nor `_LSU_` otherwise |
| Text.Split | Scripts/Functions_preprocessing.py:63 | `str.split(';')` gives at least one token, no token holds the separator, and joining the tokens with `;` gives the text back |
| Text.SplitCount | Scripts/Functions_preprocessing.py:63 | a text with k separators splits into exactly k+1 tokens |
| Text.SplitJoin | Scripts/Functions_preprocessing.py:63 | splitting a `;`-join of separator-free parts gives the parts back |
| Text.SplitAfterHead | Scripts/Functions_preprocessing.py:63 | a separator-free head followed by `;` becomes the first token, and the rest splits on its own |
| Text.SplitWithoutSeparator | Scripts/Functions_preprocessing.py:63 | a text without a separator is a single token |
| Text.DeleteChar | Scripts/Functions_preprocessing.py:78 | `replace(c, '')` leaves no `c` and never lengthens the text |
| Text.DeleteCharSubset | Scripts/Functions_preprocessing.py:78 | `replace(c, '')` adds no character |
| Text.DeleteCharAbsent | Scripts/Functions_preprocessing.py:78 | `replace(c, '')` leaves a text without `c` unchanged |
| Text.DeleteCharAppend | Scripts/Functions_preprocessing.py:78 | deleting a character from a concatenation deletes it from each part in place, keeping the order of the rest |
| Text.ContainsChars | Scripts/Functions_preprocessing.py:95-97 | a text that contains a pattern holds every character of the pattern |
| Text.MissingChar | Scripts/Functions_preprocessing.py:95-97 | a text lacking one character of a pattern does not contain the pattern |
| Seqs.Filter | Scripts/Functions_preprocessing.py:85-102 | a chain of boolean-mask selections keeps only passing elements, never adds any, and keeps every passing element |
| Seqs.FilterPositions | Scripts/Functions_preprocessing.py:85-105 | the kept rows sit at strictly increasing positions of the input, and a position is kept exactly when its row passes |
| Seqs.FilterAllPass | Scripts/Functions_preprocessing.py:85-102 | selecting with a mask that is true everywhere changes nothing |
| Seqs.FilterIdempotent | Scripts/Functions_preprocessing.py:85-105 | selecting again with the same mask changes nothing |
| Seqs.LexLessIrreflexive | Scripts/Functions_preprocessing.py:115 | lexicographic order over a strict total order is irreflexive |
| Seqs.LexLessTransitive | Scripts/Functions_preprocessing.py:115 | lexicographic order over a strict total order is transitive |
| Seqs.LexLessTotal | Scripts/Functions_preprocessing.py:115 | any two different sequences are ordered one way or the other |
| Lineage.SplitWidth | Scripts/Functions_preprocessing.py:63 | `expand=True` makes as many columns as the widest lineage has tokens, and no column for an empty table |
| Lineage.ParseRow | Scripts/Functions_preprocessing.py:63-70 | a full lineage becomes seven rank cells (Root dropped) holding no `;`, the counts follow unchanged, and Root plus the cells joined by `;` is the lineage |
| Lineage.ParseTable | Scripts/Functions_preprocessing.py:63-73 | naming the seven rank columns fails exactly when the split does not give Root plus seven ranks; on success the sum row is gone and row i is data row i+1 with seven rank cells and its own counts |
| Lineage.ParseTableLineage | Scripts/Functions_preprocessing.py:63-73 | Root and the seven cells of parsed row i, joined by `;`, give back the lineage of data row i+1 |
| Lineage.StripCell | Scripts/Functions_preprocessing.py:76-78 | a cleaned cell holds no bracket, and a cell of at most three characters cleans to the empty text |
| Lineage.StripCellPlain | Scripts/Functions_preprocessing.py:77 | a bracket-free cell longer than three characters is its three-character prefix followed by its cleaned text |
| Lineage.StripPrefixedName | Scripts/Functions_preprocessing.py:77-78 | a three-character prefix plus a name cleans to the name with its brackets deleted |
| Lineage.StripRow | Scripts/Functions_preprocessing.py:76-78 | every rank cell of a row is cleaned and the counts are unchanged |
| Lineage.StripRanks | Scripts/Functions_preprocessing.py:76-78 | every row is cleaned and rows keep their number and order |
| Lineage.StripCellAt | Scripts/Functions_preprocessing.py:78 | cleaning one rank cell of a row changes that cell to its cleaned text and leaves the other cells and the counts alone |
| Lineage.StripStep | Scripts/Functions_preprocessing.py:76-78 | a row cleaned in its first `col` cells, once cell `col` is cleaned, is cleaned in its first `col + 1` cells |
| Lineage.StripDone | Scripts/Functions_preprocessing.py:76-78 | a row cleaned in all its rank cells is the fully cleaned row |
| Lineage.StripColumn | Scripts/Functions_preprocessing.py:77-78 | one pass of the loop cleans rank column `col` of every row in place and touches nothing else |
| Lineage.StripRankColumns | Scripts/Functions_preprocessing.py:76-78 | the column-by-column in-place loop leaves the table equal to `StripRanks` of its old contents |
| TaxonFilter.UnofficialNameIff | Scripts/Functions_preprocessing.py:93-98 | the unofficial-name search matches exactly the texts with a hyphen or two leading capitals |
| TaxonFilter.ProperNameMatchIff | Scripts/Functions_preprocessing.py:94-99 | the anchored proper-name match accepts exactly the non-empty letters-only texts, allowing one trailing newline |
| TaxonFilter.LettersOnlyNotBlank | Scripts/Functions_preprocessing.py:85-99 | a letters-only text is not blank and holds no hyphen |
| TaxonFilter.LettersOnlyCaseIff | Scripts/Functions_preprocessing.py:99-102 | a letters-only text is all lower case exactly when it has no capital |
| TaxonFilter.KeepTaxonIff | Scripts/Functions_preprocessing.py:81-102 | the rank filter keeps a cell exactly when it is letters only, has a capital but not two leading ones, is not `Unassigned` and holds none of `Candidatus`, `candidate` and `mixed` |
| TaxonFilter.KeepTaxonVersusPhylum | Scripts/Functions_preprocessing.py:30-57 | the phylum filter and the rank filter agree except on texts containing `mixed` |
| TaxonFilter.UnofficialExamples | Scripts/Functions_preprocessing.py:41-48 | `TA06`, `WPS-2`, `WS1` and `AC1` are rejected by both filters |
| TaxonFilter.ProperExample | Scripts/Functions_preprocessing.py:93-102 | `Proteobacteria` is kept by both filters |
| TaxonFilter.ShapeKept | Scripts/Functions_preprocessing.py:85-102 | a letters-only name with a capital, not two leading capitals, and lacking `C`, `d` and `m`, is kept by both filters |
| TaxonFilter.FilterRows | Scripts/Functions_preprocessing.py:81-105 | the filtered table holds only rows of the input whose cell passes, and every such row |
| TaxonFilter.FilterRowsIdempotent | Scripts/Functions_preprocessing.py:81-105 | filtering a filtered table again changes nothing |
| TaxonFilter.FilterRowsSubsequence | Scripts/Functions_preprocessing.py:81-105 | the filter only deletes rows: the kept rows appear unchanged in input order, and exactly the passing rows are kept |
| TaxonFilter.FilteredNames | Scripts/Functions_preprocessing.py:81-102 | every surviving cell is a letters-only name with a capital, not blank, not `Unassigned` or `unclassified`, and free of `Candidatus`, `candidate` and `mixed` |
| Aggregation.StrLessOrder | Scripts/Functions_preprocessing.py:115 | Python's order on strings is a strict total order |
| Aggregation.KeyLessIrreflexive | Scripts/Functions_preprocessing.py:115 | no group key sorts before itself |
| Aggregation.KeyLessTransitive | Scripts/Functions_preprocessing.py:115 | the order on group keys is transitive |
| Aggregation.KeyLessTotal | Scripts/Functions_preprocessing.py:115 | any two different group keys are ordered |
| Aggregation.KeyLessOrder | Scripts/Functions_preprocessing.py:115 | Python's order on tuples of strings is a strict total order |
| Aggregation.AddCounts | Scripts/Functions_preprocessing.py:115 | summing two rows adds their counts column by column |
| Aggregation.Insert | Scripts/Functions_preprocessing.py:115 | adding a row keeps every group's count width, and every group key is the row's key or an old key |
| Aggregation.InsertKeys | Scripts/Functions_preprocessing.py:115 | after adding a row, the group keys are the old keys plus the row's key |
| Aggregation.InsertSorted | Scripts/Functions_preprocessing.py:115 | adding a row keeps the groups strictly sorted by key |
| Aggregation.InsertGroupCount | Scripts/Functions_preprocessing.py:115 | adding a row raises its own group's count by the row's count and leaves every other group's count alone |
| Aggregation.InsertTotal | Scripts/Functions_preprocessing.py:115 | adding a row raises each column's total by the row's count |
| Aggregation.Aggregate | Scripts/Functions_preprocessing.py:113-118 | every output group has the input's count width |
| Aggregation.AggregateSorted | Scripts/Functions_preprocessing.py:113-118 | the groups come out strictly sorted by key, as `groupby(sort=True)` lists them |
| Aggregation.AggregateKeySet | Scripts/Functions_preprocessing.py:113-118 | the output keys are exactly the rank paths of the input rows |
| Aggregation.AggregateGroupCount | Scripts/Functions_preprocessing.py:113-118 | a key's output count is the sum over the input rows with that key |
| Aggregation.AggregateTotal | Scripts/Functions_preprocessing.py:113-118 | summing by group keeps each column's total |
| Aggregation.AggregateKeysUnique | Scripts/Functions_preprocessing.py:113-118 | no key occurs twice in the output |
| Aggregation.AggregateKeysFromRows | Scripts/Functions_preprocessing.py:113-118 | every output key is the rank path of some input row |
| Aggregation.AggregateKeysCoverRows | Scripts/Functions_preprocessing.py:113-118 | every input row's rank path is an output key |
| Aggregation.AggregateKeysAt | Scripts/Functions_preprocessing.py:113-118 | each output rank value at a grouping column comes from some input row |
| Aggregation.AggregateKeyLength | Scripts/Functions_preprocessing.py:113-118 | every output row holds exactly the grouping columns |
| Aggregation.AggregateSums | Scripts/Functions_preprocessing.py:113-118 | each output count is the sum of that column over the input rows on that row's rank path |
| Preprocessing.FirstIndex | Scripts/Functions_preprocessing.py:111 | `list.index` finds the first occurrence, and fails exactly when the name is absent |
| Preprocessing.RankIndex | Scripts/Functions_preprocessing.py:108-111 | `tax_rank` is found among Kingdom..Species exactly when it is one of them, at its own position |
| Preprocessing.CleanedUniform | Scripts/Functions_preprocessing.py:76-105 | stripping and filtering keep seven rank cells and the count width in every row |
| Preprocessing.Preprocess | Scripts/Functions_preprocessing.py:60-120 | `preprocess_abund_table` fails exactly when the lineage columns cannot be named, `tax_rank` is not a rank column, or the file has no data rows; the last case, and only it, is `NoDataRows` |
| Preprocessing.PreprocessKeysUnique | Scripts/Functions_preprocessing.py:113-118 | the output rank paths strictly ascend, so none repeats |
| Preprocessing.FilterCover | Scripts/Functions_preprocessing.py:113-118 | grouping the rows a mask keeps loses none of them: every passing row's rank path is some group's key |
| Preprocessing.CleanedCover | Scripts/Functions_preprocessing.py:76-118 | every parsed row whose cleaned name at the chosen rank passes has its cleaned rank path among the groups |
| Preprocessing.ParsedCover | Scripts/Functions_preprocessing.py:63-118 | every data row of the file whose cleaned name at the chosen rank passes has its cleaned rank path among the groups |
| Preprocessing.PreprocessKeysCover | Scripts/Functions_preprocessing.py:60-120 | no kept row is lost: every data row whose cleaned `tax_rank` name passes the filter has its rank path, Kingdom down to `tax_rank`, as an output row |
| Preprocessing.CleanedKept | Scripts/Functions_preprocessing.py:80-105 | every row left after the filter has a kept name at the filtered rank |
| Preprocessing.AggregateKept | Scripts/Functions_preprocessing.py:113-118 | grouping rows whose names at the grouping rank all pass the filter gives groups whose names at that rank pass too |
| Preprocessing.PreprocessKeysKept | Scripts/Functions_preprocessing.py:108-118 | every output row holds Kingdom..`tax_rank`, and its `tax_rank` name is one the filter keeps |
| Preprocessing.AggregateWidthSums | Scripts/Functions_preprocessing.py:113-118 | grouping rows of one count width keeps each column's total, and each group's count sums the rows on its rank path |
| Preprocessing.PreprocessTotals | Scripts/Functions_preprocessing.py:108-118 | each count column's output total equals its total over the filtered rows |
| Preprocessing.PreprocessSums | Scripts/Functions_preprocessing.py:108-118 | each output count is the sum of that column over the filtered rows on that output row's rank path |
| Preprocessing.PreprocessPhylum | Scripts/Functions_preprocessing.py:30-57 | fails exactly when there is no `phylum` column; otherwise keeps only rows whose phylum passes, and every such row |
| Preprocessing.PhylumSubsequence | Scripts/Functions_preprocessing.py:34-54 | the chain of phylum masks keeps the rows, unchanged, at strictly increasing positions, and keeps a row exactly when its cell passes |
| Preprocessing.PreprocessPhylumSubsequence | Scripts/Functions_preprocessing.py:30-57 | the phylum cleaning only deletes rows: the result is the input's rows, unchanged, at strictly increasing positions, and a row is kept exactly when its `phylum` cell passes |
| Preprocessing.PreprocessPhylumIdempotent | Scripts/Functions_preprocessing.py:30-57 | cleaning a cleaned phylum table again changes nothing |
| Scenarios.PhylumMerge | Scripts/Functions_preprocessing.py:97-118 | at the phylum, a rejected row is dropped and two rows sharing Kingdom and Phylum merge into one with their counts summed |
| Scenarios.ProteobacteriaMerge | Scripts/Functions_preprocessing.py:91-118 | two Proteobacteria classes with counts (3,1) and (2,4) merge to (5,5) at the phylum, and a TA06 row is dropped |

## Left out

- Reading files is not modelled: the `glob` listing, `os.path.join` and `pd.read_csv`. `FileSelection.SelectFile` takes the listed paths as a parameter, in the order the listing returned them.
- The message that `load_abund_table` prints when no file matches is not modelled; only the `None` result is.
- Missing values (`NaN` or `None`) are not modelled; cells are always strings. Short lineages, which `str.split(expand=True)` pads with `None`, are excluded by the precondition `Lineage.DataRowsComplete`: every data row has Root plus seven ranks. The same precondition also excludes a data row with more than eight tokens, for which the renaming on line 66 raises; the model returns `BadLineage` for that case only when the long lineage is in row 0. As a result, the model does not capture the `dropna` calls on lines 32 and 81, or `groupby` dropping rows with a `NaN` key. `fillna('')` on line 84 is the identity once there are no `NaN`s. The column-sum row may have any shape.
- Preprocessing.Preprocess: the output rows hold only the grouping columns and the summed counts. The model leaves out the rank columns below `tax_rank`: pandas' `.sum()` concatenates those strings per group (older pandas drops them as nuisance columns), and the model carries neither.
- Preprocessing.Preprocess: when `tax_rank` is not a rank column, the source raises instead of returning. If `tax_rank` names no column at all, `dropna` raises `KeyError` on line 81. If it names one of the count columns, lines 81 and 84 pass, and the blank test on line 85 raises `AttributeError`, because it calls `strip` on a number. The model returns the error value `UnknownRank` in both cases.
- Aggregation.AddCounts: counts are unbounded natural numbers. pandas holds them as 64-bit integers, and the `.sum()` on line 115 wraps around on overflow; the model does not capture that wrap-around.
- `islower` is modelled for ASCII letters only. This makes no difference, because the proper-name pattern already admits only ASCII letters.
- Scenarios.PhylumMerge: the example starts from rows that are already stripped. Running the split and strip steps on concrete lineage strings is covered by the general lemmas, not by this example.
- The rest of the repository is not part of this model: the MGnify REST and FTP download scripts and the driver scripts.
