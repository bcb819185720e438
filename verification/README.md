# Nutricheck FoodDB — a Dafny model of the ranking pipeline

Nutricheck FoodDB ranks foods by how much of a nutrient compound they contain.
This project models the data pipeline at the centre of that system and proves
properties about it. It has three parts:

- **The fact builder** (`core/database.py`). It keeps the content rows tagged
  `"Compound"`. It inner-joins them to the compound table on
  `source_id = id` and to the food table on `food_id = id`. It sorts by
  compound name ascending, then concentration descending. It attaches a
  per-compound `food_rank`. Finally it projects to the four columns
  `compound_name, food_rank, food_name, concentration`.
- **The query engine** (`core/analysis.py`). It parses the comma-separated
  compound names the user types, with each name stripped and capitalized. It
  selects the rows of the requested compounds, warns about unknown names, and
  fails when nothing matches. It keeps the rows with `food_rank <= top_n`. It
  names the report file after the joined names and `top_n`.
- **The legacy one-shot script** (`scripts/get_compounds.py`). It runs the same
  joins, but selects the requested compounds *before* ranking. It neither trims
  nor capitalizes the names. It cuts at the fixed bound `food_rank < 6`.

Modules, in dependency order:

| module | file | contents |
|---|---|---|
| `Results` | `results.dfy` | `Result` = `Success` or `Failure`, the model of a raised `ValueError` |
| `Seqs` | `seqs.dfy` | order-keeping `Filter` and `CountIf`, with their algebra |
| `Text` | `text.dfy` | `strip`, `capitalize`, `split`, `join` and `str(int)` on Python strings |
| `Lex` | `lex.dfy` | Python's string order, lexicographic by code point |
| `Tables` | `tables.dfy` | records of the raw, merged, ranked and published tables |
| `Sorting` | `sorting.dfy` | the sort key and a sorted permutation of the merged table |
| `Ranking` | `ranking.dfy` | the pandas grouped `rank(ascending=False)` |
| `Database` | `database.dfy` | `filter_compound_only`, `merge_tables`, `rank_food`, `format_output`, `create_db` |
| `Analysis` | `analysis.dfy` | name parsing, `filter_compounds`, `get_top_compounds`, the report name, `get_ranked_foods` |
| `GetCompounds` | `get_compounds.dfy` | the legacy script |

### How ranks are computed

`food_rank` is `groupby("name_compounds")["orig_content"].rank(ascending=False)`.
Pandas' default tie method for `rank` is `"average"`. Rows with equal
concentration within a compound all get the mean of the positions they occupy.
For example, concentrations 9, 7, 7, 3 get ranks 1, 2.5, 2.5, 4. This is
not a dense rank, which would give 1, 2, 2, 3.

The model states the rank in two independent ways and proves them equal:

- **Reference definition** (`Ranking.AverageRank`). Let `above` be the number
  of rows of the compound with a higher concentration, and `atLeast` the number
  with a concentration at least as high. The rank is `(above + 1 + atLeast) / 2`.
  This depends only on which rows are present, not on their order.
- **Implementation** (`Ranking.PositionRank`). On the sorted table, the rank is
  the mean of the 1-based first and last positions of the row's run of tied
  keys, counted within its compound group.

Neither definition depends on the order of rows with equal keys, so the ranks
are the same whatever order the sort leaves tied rows in.

## Model

| member | source | states |
|---|---|---|
| Seqs.Filter | Nutricheck_FoodDB/core/database.py:34 | Boolean-mask selection `df[mask]`: keeps exactly the elements that satisfy the predicate, with none added. `Seqs.FilterAppend`, `Seqs.FilterIdentity` and `Seqs.FilterIdempotent` state its algebra. |
| Database.FilterCompoundOnly | Nutricheck_FoodDB/core/database.py:34-37 | Fails exactly when no content row is tagged `"Compound"`. Otherwise returns a non-empty list holding exactly the compound-tagged rows, in their original order. |
| Database.MatchCompounds | Nutricheck_FoodDB/core/database.py:53 | The merged pairs for one content row are exactly that row paired with each compound whose id is its `source_id`. |
| Database.JoinCompounds | Nutricheck_FoodDB/core/database.py:53 | Inner merge on `source_id = id`: a (content, compound) pair is present exactly when both rows are present and the ids agree. |
| Database.MatchFoods | Nutricheck_FoodDB/core/database.py:54 | The rows for one linked row are exactly that row joined to each food whose id is its `food_id`. |
| Database.JoinFoods | Nutricheck_FoodDB/core/database.py:54 | Inner merge on `food_id = id`: a row is present exactly when its (content, compound) pair and its food are present and the ids agree. |
| Database.MergeTables | Nutricheck_FoodDB/core/database.py:53-54 | A (content, compound, food) row is in the merge exactly when all three are in their tables, `source_id` is the compound's id and `food_id` is the food's id. Unmatched content rows are dropped without an error. |
| Database.MatchCompoundsAtMostOne | Nutricheck_FoodDB/core/database.py:53 | With unique compound ids, a content row matches at most one compound. |
| Database.MatchFoodsAtMostOne | Nutricheck_FoodDB/core/database.py:54 | With unique food ids, a linked row matches at most one food. |
| Database.JoinCompoundsLength | Nutricheck_FoodDB/core/database.py:53 | With unique compound ids, the first merge has no more rows than the content table. |
| Database.JoinFoodsLength | Nutricheck_FoodDB/core/database.py:54 | With unique food ids, the second merge has no more rows than its input. |
| Database.MergeTablesLength | Nutricheck_FoodDB/core/database.py:53-54 | With unique ids in both tables, the merge has at most one row per content row. |
| Database.FormatOutput | Nutricheck_FoodDB/core/database.py:85-91 | Keeps row count and order. Each output row carries its ranked row's compound name, rank, food name and `orig_content` under the new column names. |
| Database.CreateDb | Nutricheck_FoodDB/core/database.py:113-125 | Building the table fails exactly when no content row is tagged `"Compound"`. |
| Database.CreateDbSound | Nutricheck_FoodDB/core/database.py:113-125 | Every row of the built table describes a compound-tagged content row together with the compound and the food its ids name. |
| Database.FormatCovers | Nutricheck_FoodDB/core/database.py:67-91 | Ranking and formatting drop no merged row: each one is described by some row of the output. |
| Database.CreateDbComplete | Nutricheck_FoodDB/core/database.py:113-125 | Every compound-tagged content row whose compound and food exist shows up in the built table. |
| Database.CreateDbRanks | Nutricheck_FoodDB/core/database.py:113-125 | For any two rows of the built table, in order: compound names ascend. Within a compound, concentration never increases and rank never decreases. |
| Database.CreateDbRankBounds | Nutricheck_FoodDB/core/database.py:113-125 | Every rank of the built table lies between 1 and the number of rows of the table. |
| Sorting.KeyLeTransitive | Nutricheck_FoodDB/core/database.py:67 | The sort key (name ascending, then concentration descending) is a transitive order. |
| Sorting.KeyLeTotal | Nutricheck_FoodDB/core/database.py:67 | Any two rows are comparable under the sort key. |
| Sorting.NameSqueeze | Nutricheck_FoodDB/core/database.py:67 | In key order, a row that falls between two rows of one compound belongs to that compound, so groups are contiguous. |
| Sorting.KeyLeSameName | Nutricheck_FoodDB/core/database.py:67 | Within one compound, the key order is descending concentration. |
| Sorting.SortedCons | Nutricheck_FoodDB/core/database.py:67 | A row that may precede every row of a sorted table can be put in front of it. |
| Sorting.HeadPrecedes | Nutricheck_FoodDB/core/database.py:67 | The head of a sorted table may precede every row of its tail, even with another row inserted after the head. |
| Sorting.Insert | Nutricheck_FoodDB/core/database.py:67 | Inserting into a sorted table gives a sorted table with exactly one more occurrence of the inserted row. |
| Sorting.SortRows | Nutricheck_FoodDB/core/database.py:67 | `sort_values` returns a permutation of its input, as a multiset, that is sorted by the key. |
| Lex.Irreflexive | Nutricheck_FoodDB/core/database.py:67 | No name sorts before itself. |
| Lex.Asymmetric | Nutricheck_FoodDB/core/database.py:67 | Two names never each sort before the other. |
| Lex.Transitive | Nutricheck_FoodDB/core/database.py:67 | Python's string order is transitive. |
| Lex.Total | Nutricheck_FoodDB/core/database.py:67 | Any two distinct names are ordered one way or the other. |
| Ranking.GroupStartSpec | Nutricheck_FoodDB/core/database.py:68 | The group start of a row is the first index of the contiguous block of rows sharing its compound name. |
| Ranking.RunStartSpec | Nutricheck_FoodDB/core/database.py:68 | The run start of a row is the first index of its block of equal keys, and lies inside its group. |
| Ranking.RunEndSpec | Nutricheck_FoodDB/core/database.py:68 | The run end of a row is one past the last index of its block of equal keys. |
| Ranking.TieBlockRank | Nutricheck_FoodDB/core/database.py:68 | In a sorted table, a tie block between `lo` and `hi` of a group starting at `g` has `lo - g` rows above it and `hi - g` at or above it. Its reference rank is the mean of positions `lo - g + 1` and `hi - g`. |
| Ranking.RunIsTieBlock | Nutricheck_FoodDB/core/database.py:68 | The group start, run start and run end of a row bound a tie block in the sense above. |
| Ranking.RunCountAbove | Nutricheck_FoodDB/core/database.py:68 | In a sorted table, the number of rows of a row's compound with a higher concentration is its run start minus its group start. |
| Ranking.RunCountAtLeast | Nutricheck_FoodDB/core/database.py:68 | In a sorted table, the number of rows of a row's compound with at least its concentration is its run end minus its group start. |
| Ranking.PositionRank | Nutricheck_FoodDB/core/database.py:68 | The value `rank()` assigns to a row of the sorted table: the mean of the first and last in-group positions of its tie run. `Ranking.PositionRankIsAverage` equates it with the reference rank. |
| Ranking.PositionRankIsAverage | Nutricheck_FoodDB/core/database.py:68 | On a sorted table, the positional rank equals the order-independent reference average rank. |
| Ranking.AverageRankPermutation | Nutricheck_FoodDB/core/database.py:67-68 | The reference rank does not depend on row order, so sorting does not change it. |
| Ranking.AverageRankBounds | Nutricheck_FoodDB/core/database.py:68 | The rank of a present row is at least 1 and at most the size of its compound group. |
| Ranking.AverageRankMonotone | Nutricheck_FoodDB/core/database.py:68 | A lower concentration never gets a smaller rank. Equal concentrations get equal ranks. |
| Ranking.AverageRankStrict | Nutricheck_FoodDB/core/database.py:68 | A present concentration ranks strictly ahead of any lower concentration of the same compound. |
| Ranking.RankFood | Nutricheck_FoodDB/core/database.py:67-68 | The result is a sorted permutation of the merged rows. Each row's `food_rank` is the average rank of its concentration among all rows of its compound in the input. |
| Ranking.RankFoodGroupOrder | Nutricheck_FoodDB/core/database.py:67-68 | Along the ranked table within one compound, concentration never increases and rank never decreases. Equal concentrations share a rank. |
| Ranking.RankFoodBounds | Nutricheck_FoodDB/core/database.py:68 | Every `food_rank` lies between 1 and the number of rows of its compound. |
| Ranking.DistinctKeysUntied | Nutricheck_FoodDB/core/database.py:68 | When no two rows share compound and concentration, every row is alone at its concentration. |
| Ranking.UntiedPositionRank | Nutricheck_FoodDB/core/database.py:68 | Without ties, a row's rank is its 1-based position within its compound group (ranks 1, 2, 3, ...). |
| Ranking.GroupStartShared | Nutricheck_FoodDB/core/database.py:67-68 | In a sorted table, all rows of one compound share the same group start. |
| Text.Strip | Nutricheck_FoodDB/core/analysis.py:22 | `str.strip()`: the result is no longer than the input and has no whitespace at either end. `Text.StripSlice`, `Text.StripUnchanged` and `Text.StripEmpty` describe what it removes. |
| Text.StripBounds | Nutricheck_FoodDB/core/analysis.py:22 | Gives the bounds of the kept slice, with only whitespace before and after it. |
| Text.StripSlice | Nutricheck_FoodDB/core/analysis.py:22 | `strip()` returns a slice of its input with only whitespace outside it and no whitespace at either end. |
| Text.StripUnchanged | Nutricheck_FoodDB/core/analysis.py:22 | `strip()` leaves a string alone when neither end is whitespace. |
| Text.StripEmpty | Nutricheck_FoodDB/core/analysis.py:22 | A string strips to nothing exactly when it is all whitespace. |
| Text.Capitalize | Nutricheck_FoodDB/core/analysis.py:22 | `str.capitalize()` over ASCII: same length, first character upper-cased, every other character lower-cased. `Text.CapitalizeIgnoresCase`, `Text.CapitalizeIdempotent` and `Text.CapitalizeKeepsSpaces` describe it. |
| Text.CapitalizeIgnoresCase | Nutricheck_FoodDB/core/analysis.py:22 | `capitalize()` gives the same result for strings that differ only in letter case. |
| Text.CapitalizeIdempotent | Nutricheck_FoodDB/core/analysis.py:22 | Capitalizing twice is capitalizing once. |
| Text.CapitalizeKeepsSpaces | Nutricheck_FoodDB/core/analysis.py:22 | `capitalize()` keeps the length and never turns whitespace into non-whitespace or back. |
| Text.CountCharZero | Nutricheck_FoodDB/core/analysis.py:22-23 | A character occurs zero times exactly when it is absent. This is a helper of `Analysis.BlankInput`. |
| Text.Split | Nutricheck_FoodDB/core/analysis.py:22 | `split(",")` yields at least one piece, and no piece contains the separator. |
| Text.SplitCount | Nutricheck_FoodDB/core/analysis.py:22 | `split` yields one more piece than there are separators. |
| Text.Join | Nutricheck_FoodDB/core/analysis.py:95 | `sep.join(pieces)`. `Text.JoinSplit` and `Text.SplitJoin` state that it is the inverse of `split`. |
| Text.JoinSplit | Nutricheck_FoodDB/core/analysis.py:22 | Joining the pieces of a split with the separator gives back the input. |
| Text.JoinPrepend | Nutricheck_FoodDB/core/analysis.py:95 | Prefixing the first piece with a character prefixes the join with it. |
| Text.SplitNoSeparator | Nutricheck_FoodDB/core/analysis.py:22 | A string without the separator splits into itself alone. |
| Text.SplitAfterPiece | Nutricheck_FoodDB/core/analysis.py:22 | Splitting a separator-free piece, a separator and a rest gives the piece followed by the split of the rest. |
| Text.SplitJoin | Nutricheck_FoodDB/core/analysis.py:95 | Splitting a join of separator-free pieces gives back the pieces. |
| Text.NatToString | Nutricheck_FoodDB/core/analysis.py:96 | `str` of a natural is a non-empty string of decimal digits without a leading zero. |
| Text.NatToStringValue | Nutricheck_FoodDB/core/analysis.py:96 | Reading the printed digits back gives the number. |
| Text.NatToStringInjective | Nutricheck_FoodDB/core/analysis.py:96 | Distinct naturals print differently. |
| Text.IntToString | Nutricheck_FoodDB/core/analysis.py:96 | `str(i)` for an int: `-` followed by the digits of the magnitude for a negative number. `Text.SignMark` and `Text.IntToStringInjective` describe it. |
| Text.SignMark | Nutricheck_FoodDB/core/analysis.py:96 | `str(i)` starts with `-` exactly when `i` is negative. |
| Text.IntToStringInjective | Nutricheck_FoodDB/core/analysis.py:96 | Distinct integers print differently. |
| Analysis.Normalize | Nutricheck_FoodDB/core/analysis.py:22 | `c.strip().capitalize()`. `Analysis.NormalizeIdempotent`, `Analysis.NormalizeIgnoresCaseAndBlanks` and `Analysis.NormalizeEmpty` describe it. |
| Analysis.NormalizeIgnoresCaseAndBlanks | Nutricheck_FoodDB/core/analysis.py:22 | Two pieces whose stripped forms agree up to letter case normalize to the same name, so surrounding blanks and case do not matter. |
| Analysis.NormalizeIdempotent | Nutricheck_FoodDB/core/analysis.py:22 | Stripping and capitalizing a name that is already normalized changes nothing. |
| Analysis.NormalizeEmpty | Nutricheck_FoodDB/core/analysis.py:22-23 | A piece normalizes to the empty name exactly when it is blank. |
| Analysis.NormalizeAll | Nutricheck_FoodDB/core/analysis.py:22 | The comprehension keeps the number of pieces and normalizes each one in place. |
| Analysis.BlankInput | Nutricheck_FoodDB/core/analysis.py:22-23 | The parsed list is `[""]` exactly when the input has no comma and is all whitespace. |
| Analysis.ParseCompoundNames | Nutricheck_FoodDB/core/analysis.py:22-25 | The input is rejected exactly when it has no comma and is blank. Otherwise there is one name per comma-separated piece, each piece stripped and capitalized. |
| Analysis.FilterCompounds | Nutricheck_FoodDB/core/analysis.py:44-56 | Fails exactly when no row's compound is requested. Otherwise the rows are exactly the table rows of requested compounds, in table order, and the missing names are exactly the requested names absent from the table, in request order. |
| Analysis.FilterCompoundsFailsIffAllMissing | Nutricheck_FoodDB/core/analysis.py:45-54 | The query fails exactly when every requested name is reported missing. |
| Analysis.GetTopCompounds | Nutricheck_FoodDB/core/analysis.py:70 | Keeps exactly the rows with `food_rank <= top_n`, in order. |
| Analysis.GetTopCompoundsIdempotent | Nutricheck_FoodDB/core/analysis.py:70 | Cutting at `top_n` twice is the same as cutting once. |
| Analysis.GetTopCompoundsUnchanged | Nutricheck_FoodDB/core/analysis.py:70 | The cut returns its input unchanged exactly when every rank is within `top_n`. |
| Analysis.ReportTail | Nutricheck_FoodDB/core/analysis.py:96 | After the names, the report name is `_top_`, then `str(top_n)`, then `.csv`. |
| Analysis.ReportName | Nutricheck_FoodDB/core/analysis.py:95-96 | The report name is the fixed prefix, then the requested names joined by `-`, then the top-N tail. |
| Analysis.Slice | Nutricheck_FoodDB/core/analysis.py:96 | Each of the three parts of the report name can be read back from it. |
| Analysis.ReportNameDistinguishesTopN | Nutricheck_FoodDB/core/analysis.py:96 | The same names with different `top_n` values give different report names. |
| Analysis.ReportNameDistinguishesNames | Nutricheck_FoodDB/core/analysis.py:95-96 | When no requested name contains `-`, different name lists give different report names. |
| Analysis.GetRankedFoods | Nutricheck_FoodDB/core/analysis.py:88-96 | Fails exactly when no requested compound is in the table. Otherwise the rows are exactly those of a requested compound ranked within `top_n`, the missing names are exactly the unknown requested names, and the file is named after the names and the same `top_n`. |
| GetCompounds.GetCompoundNames | scripts/get_compounds.py:6 | The raw pieces contain no comma, number one more than the commas, and join back to the input. |
| GetCompounds.FilterCompoundOnly | scripts/get_compounds.py:14-15 | Keeps exactly the compound-tagged content rows; an empty result is not an error. |
| GetCompounds.FilterCompoundOnlyAgrees | scripts/get_compounds.py:14-15 | The script keeps the same rows as the fact builder, and returns nothing exactly where the builder raises. |
| GetCompounds.MergeTables | scripts/get_compounds.py:17-20 | Same inner-merge membership as the fact builder, with the arguments in the script's order. |
| GetCompounds.FilterCompounds | scripts/get_compounds.py:22-24 | Keeps exactly the merged rows whose compound name is among the raw requested names. |
| GetCompounds.RankFood | scripts/get_compounds.py:26-29 | A sorted permutation of the selected rows. Each rank is the average rank among the *selected* rows of its compound. |
| GetCompounds.FormatOutput | scripts/get_compounds.py:31-40 | Keeps exactly the formatted rows ranked strictly below 6, in order. |
| GetCompounds.ReportName | scripts/get_compounds.py:67-68 | The output path is the fixed prefix, then the raw names joined by `-`, then `.csv`, with no top-N part. |
| GetCompounds.KeptRowsRequested | scripts/get_compounds.py:38 | After the cut, every row is of a requested compound and ranked below 6. |
| GetCompounds.RunScript | scripts/get_compounds.py:43-68 | Every output row is of a compound named in the raw input and ranked below 6. The file is named after the raw names. |
| GetCompounds.AtMostFivePerCompound | scripts/get_compounds.py:26-40 | When no two selected rows share compound and concentration, at most five rows per compound survive the cut. |

## Left out

- Reading and writing files is not modelled: `load_data`, `to_csv`, `read_csv`, `mkdir`, and the paths from environment variables in `config.py`. Tables are passed in as values.
- The database-existence check in `get_ranked_foods` (`analysis.py:78-84`) is not modelled. It re-runs `create_db` when the stored file is missing. `Analysis.GetRankedFoods` takes the ranked table as a parameter, and `Database.CreateDb` models how that table is built.
- The interactive prompt is not modelled: the `input()` loop, the retry after an empty answer, the `KeyboardInterrupt` exit, and every `print`. `Analysis.ParseCompoundNames` returns `Failure` where the code re-prompts. The unknown-name warning is modelled by the `missing` list it would print.
- `TOP_N_FOODS` (`config.py:15`, default 5, overridable from the environment) is a parameter `topN` of `Analysis.GetRankedFoods`. It is used both for the cut and for the file name, as in the code.
- Concentrations and ranks are modelled as exact reals. Floating-point rounding and NaN concentrations are not modelled. Pandas gives a NaN concentration a NaN rank and sorts it last.
- Ids are unbounded integers. The pandas column types (`int64`, `float64`) are not modelled.
- Columns that do not reach the output are not modelled, such as the food and compound ids after the merge and the `_compounds`/`_foods` name suffixes. `reset_index` is not modelled either, because the model's tables carry no index.
- Database.MergeTables: states which rows appear, and an upper bound on their count when ids are unique, but not their order. Rows with equal sort keys keep that merge order in the published table, and that order is not modelled.
- Sorting.SortRows: does not model the order of rows with equal keys. The stable multi-column sort takes that order from the merge. The ranks do not depend on it.
- Analysis.AvailableCompounds: is a set. The first-appearance order of `unique()` only shows up in the printed warning text.
- Text.Capitalize: maps case over ASCII letters only. Unicode case mapping and title-case characters are not modelled.
- Text.IsSpace: covers the ASCII whitespace that Python's `str.isspace` accepts. Unicode spaces outside ASCII are not modelled.
- GetCompounds.RunScript: states which rows may appear, not that every eligible row does. Completeness follows from `GetCompounds.FilterCompounds`, `GetCompounds.RankFood` and `GetCompounds.FormatOutput`, which each state an if-and-only-if.
- `setup.py` and the command-line entry points (`if __name__ == "__main__"`) are not part of this model.
