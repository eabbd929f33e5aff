# remora `io.py` in Dafny

This project models the conversion and merging tools of `remora/io.py`. These tools turn raw output of the DOLPHOT photometry package into named catalogues.

- **Column names.** `read_colfile` reads a DOLPHOT `.columns` file, with one line `"<n>. <description>"` per column. It classifies each description as SINGLE (a per-exposure column, with `", "` before any `" ("`) or GLOBAL. It derives a short name through two ordered chains of regular-expression rules. It then joins the short name to a filter/chip prefix, giving names such as `F475W_chip1_COUNT` or `X`.
- **Column selection.** `select_cols` picks out the names that match a pattern (by default `X`, `Y` and every name that starts with an ACS/WFC3 filter). It returns those names together with their 0-based file offsets.
- **Sky coordinates.** `add_wcs` drops and recomputes the `RA`/`DEC` columns of a vaex table from its pixel `X`/`Y`. It then puts the four coordinate columns first.
- **Merging.** `calc_xmed` computes the pixel column on which two overlapping catalogues are cut. `merge_parallel_phot` cuts three catalogues at two such columns, stacks the pieces, and adds sky coordinates.

## The model, file by file

- **Rules and rule chains.** Regular-expression rules are alternations of literals. They are applied the way `re.sub` applies them: the leftmost match wins, alternatives are tried in their listed order, and the scan resumes after each replacement (`Text.ReplaceAll`). The rule tables of `io.py` are `ColumnNames.SingleRules` and `ColumnNames.GlobalRules`. The two rule loops of `read_colfile` are a method with a loop (`ColumnNames.ApplyChain`), proved against the functional chain `ApplyRules`.
- **Regrouping.** `read_colfile` does not name the lines in place. It drops from the file every line whose number a SINGLE line carries, which removes the SINGLE lines and any GLOBAL line sharing a number with one. It then concatenates the names of the kept GLOBAL lines with those of the SINGLE lines and realigns the result on the file's numbers with `reindex_like`. `ColumnNames.Concatenated` is that concatenation and `ColumnNames.Reindex` is `reindex_like`. An identical index is copied as it is. Otherwise a repeated label is an error, and each label takes the one value stored under it. The method `ColumnNames.ReadColfile` follows these steps. `ColumnNames.ReadColfileSpec` states the outcome line by line: each line gets the name of its own description, except that a GLOBAL line sharing its number with a SINGLE line gets that SINGLE line's name.
- **pandas version.** The model follows pandas 1.x. There `str.replace` reads its pattern as a regular expression by default, so `.chip` becomes `_chip` and a leading `_` is removed (`io.py` lines 77 and 81).
- **NaN names.** pandas' NaN name is `None`. It arises from a GLOBAL description with no word left, or from a SINGLE one whose second `", "` piece is missing or holds no word. It propagates through the rules and the join, as in pandas.
- **Tables.** A vaex table is the class `Catalog.Dataset`. Its fields are the visible column names, the rows (maps from column name to value) and the `__filter__` selection. `drop`, `add_column` and `select` update it in place. `extract`, `ds[names]` and the concatenation build new tables.
- **Pixel-to-sky map.** The transformation from pixel to sky coordinates is a parameter, `toSky`.
- **Numbers.** Coordinates are exact rationals (`real`). Python's `round` is rounding half to even (`Merge.RoundHalfEven`).
- **Errors.** An error vaex or pandas would raise is a `Result` error:
  - a line without `". "` (pandas gives it no description, and the mask at `io.py` line 57 then fails);
  - a line whose number is not a run of decimal digits (a model choice; see "Left out");
  - a repeated label in the concatenated names when those labels are not the file's own, which `reindex_like` refuses to realign;
  - a NaN name under `str.match`;
  - a missing column;
  - the minimum or maximum of an empty column.

Three behaviours of the code are easy to miss, and the model keeps them:

- **Boundary rows.** Every bound is inclusive, so a row whose `X` equals a split point is kept from both tables that meet there. `MergeExamples.DuplicateExample` shows a row kept twice.
- **Rounding.** `round` in Python 3 rounds ties to the even neighbour, not away from zero.
- **The first cut.** For tables with `X` values `[1,5,10]`, `[8,12,20]` and `[18,25,30]`, the first table contributes only `1` and `5`, because `10 > 9`.

## Model

| member | source | states |
|---|---|---|
| ColumnNames.DefaultRulesWellFormed | remora/io.py:20-34 | every rule of both tables has only non-empty alternatives, so each is a valid substitution |
| ColumnNames.ApplyRulesConcat | remora/io.py:67-68 | running one list of rules and then another is running their concatenation |
| ColumnNames.ApplyRulesFirst | remora/io.py:67-68 | the first rule of the table is the first one applied to the name |
| ColumnNames.ApplyRulesAbsent | remora/io.py:67-68 | rules none of whose alternatives occur in a name leave it unchanged |
| ColumnNames.ApplyChain | remora/io.py:67-68 | the rule loop leaves NaN and unselected names alone and maps every selected defined name through the whole chain, rules in order |
| ColumnNames.ClassifySingleIff | remora/io.py:55-56 | a description is SINGLE exactly when `", "` occurs wholly before the first `" ("` (both directions) |
| ColumnNames.ClassifySingleSound | remora/io.py:55-56 | a SINGLE description has a `", "` ending before its first `" ("` |
| ColumnNames.ClassifySingleComplete | remora/io.py:55-56 | a `", "` ending before the first `" ("` makes the description SINGLE |
| ColumnNames.ParenAt | remora/io.py:55 | the part a `" ("` split keeps is the text before the first `" ("`, which occurs there when it is not the end |
| ColumnNames.GlobalNaming | remora/io.py:60-62 | a GLOBAL name has no prefix: it is the upper-cased first word of the description with `Object` deleted, after the global rules, and NaN when there is no word |
| ColumnNames.SingleNaming | remora/io.py:64-68 | a SINGLE name is prefix, `_`, upper-cased short name after both chains; only a prefix starting with `_` loses that character; NaN without a prefix |
| ColumnNames.SinglePrefixNonEmpty | remora/io.py:76-77 | a defined SINGLE prefix is never empty |
| ColumnNames.JoinPrefix | remora/io.py:80-81 | joining a non-empty prefix puts `_` between it and the upper-cased short name and strips one leading `_` |
| ColumnNames.JoinEmptyPrefix | remora/io.py:75 | the empty GLOBAL prefix contributes nothing, not even the `_` |
| ColumnNames.NameShape | remora/io.py:80-81 | every defined name ends with the upper-cased short name, which holds no lower-case letter |
| ColumnNames.ParseFormatLine | remora/io.py:52-53 | reading back a line `"<n>. <description>"` gives the number and the description, whatever the description holds |
| ColumnNames.IndexTextValue | remora/io.py:52-53 | the decimal digits written for a number read back as that number |
| ColumnNames.ParseLines | remora/io.py:52-53 | either every line parses and the entries are the lines' entries in order, or the error is that of some line that does not parse |
| ColumnNames.RepeatedIndex | remora/io.py:70-71 | no label is reported exactly when the labels are distinct; a reported label occurs twice |
| ColumnNames.IndexOf | remora/io.py:70-71 | the position of a label, and none exactly when the label is absent |
| ColumnNames.Reindex | remora/io.py:70-71 | `reindex_like` fails exactly when the labels differ from the target and repeat, naming a repeated label; an identical index keeps the values; otherwise each target label takes the value stored under it, or NaN |
| ColumnNames.SingleWith | remora/io.py:57-58 | the first SINGLE line with a given number, and none exactly when no SINGLE line carries it |
| ColumnNames.DroppedShortens | remora/io.py:58 | a GLOBAL line sharing its number with a SINGLE line is dropped, so the concatenation is shorter than the file |
| ColumnNames.NothingDropped | remora/io.py:57-58 | a concatenation as long as the file dropped no line |
| ColumnNames.SameLabelsSameRows | remora/io.py:57-71 | when the concatenated labels are the file's own, the concatenation is the file in its own order and every line keeps its own name |
| ColumnNames.ConcatSource | remora/io.py:70-71 | each line's owner is in the concatenation, at the line's own position when the labels are the file's own |
| ColumnNames.ReindexedRow | remora/io.py:70-71 | after `reindex_like`, row `k` holds what the concatenation held for the owner of line `k` |
| ColumnNames.SinglesRepeat | remora/io.py:57-71 | two SINGLE lines with one number repeat a concatenated label |
| ColumnNames.KeptGlobalsRepeat | remora/io.py:58-71 | two kept GLOBAL lines with one number repeat a concatenated label |
| ColumnNames.DistinctConcat | remora/io.py:57-71 | without such pairs the concatenated labels are distinct |
| ColumnNames.ConcatDistinctIff | remora/io.py:57-71 | the concatenated labels are distinct exactly when no two SINGLE lines and no two kept GLOBAL lines share a number (both directions) |
| ColumnNames.ReadColfileDefined | remora/io.py:37-83 | after parsing, the name table exists exactly when the concatenated labels are the file's own or no two SINGLE lines and no two kept GLOBAL lines share a number; the error names a repeated concatenated label |
| ColumnNames.ReadColfileUnparsed | remora/io.py:52-53 | a line that does not parse makes `read_colfile` fail with the error of a line that does not parse |
| ColumnNames.ReadColfileRows | remora/io.py:70-82 | one row per line, in file order, with the line's number and description; a SINGLE line, and a GLOBAL line whose number no SINGLE line carries, gets the canonical name of its own description |
| ColumnNames.ReadColfileSharedNumber | remora/io.py:57-82 | a GLOBAL line sharing its number with a SINGLE line gets the canonical name of that SINGLE line's description |
| ColumnNames.ReadColfileDistinctNumbers | remora/io.py:37-83 | with all numbers different, as DOLPHOT writes them, the table exists and every line gets the canonical name of its own description |
| ColumnNames.ResolvedRow | remora/io.py:80-82 | a table row holds the line's number, its description and the canonical name of its owner's description |
| ColumnNames.TwoGlobalsOneNumber | remora/io.py:57-82 | two GLOBAL lines with one number keep their own names |
| ColumnNames.SingleLendsName | remora/io.py:57-82 | a SINGLE line and then a GLOBAL line with its number both get the SINGLE line's name |
| ColumnNames.SplitSinglesFail | remora/io.py:57-71 | two SINGLE lines sharing a number around a GLOBAL line with another number make `read_colfile` fail naming that number |
| ColumnNames.SplitSinglesConcat | remora/io.py:57-70 | in that file the concatenation is the GLOBAL line, then the two SINGLE lines |
| ColumnNames.RepeatedOnly | remora/io.py:70-71 | in labels `[m, n, n]` with `m` different from `n` the repeated label is `n` |
| ColumnNames.SingleChainNames | remora/io.py:64-68 | after the SINGLE loop each concatenated line holds its short name before the global rules |
| ColumnNames.RealignedTable | remora/io.py:70-82 | realigning the short names and prefixes of the concatenation, then joining them, gives every line the canonical name of its owner's description |
| ColumnNames.ReadColfile | remora/io.py:37-83 | the step-by-step `read_colfile` (parse, regroup, SINGLE rules, realign, global rules, realign prefixes, join) returns exactly the specified table or error |
| ColumnNameExamples.RateUncertaintyIsRatErr | remora/io.py:23-24 | the uncertainty rule precedes the plain rate rule, so `Normalized count rate uncertainty` becomes `RATERR` and not `RATE uncertainty` |
| ColumnNameExamples.MeasuredCountsName | remora/io.py:55-82 | `Measured counts, F475W.chip1` is SINGLE and is named `F475W_chip1_COUNT` |
| ColumnNameExamples.ObjectX | remora/io.py:60-62 | `Object X` is GLOBAL and is named `X` |
| ColumnNameExamples.ObjectSharpness | remora/io.py:31-34 | the global `ness` rule trims `Object sharpness` to `SHARP` |
| ColumnNameExamples.LaterRulesKeepRatErr | remora/io.py:24-28 | the rules after the uncertainty rule do not touch `RATERR` |
| ColumnNameExamples.ObjectWord | remora/io.py:61-62 | `Object <word>` has `<word>` as its GLOBAL short name |
| Text.Find | remora/io.py:55-56 | the leftmost occurrence of a literal, and none before it |
| Text.ReplaceIsSplitJoin | remora/io.py:61 | replacing a single literal is splitting at it and joining with the replacement |
| Text.JoinSplit | remora/io.py:64 | joining the pieces of a split with the separator gives back the text |
| Text.Strip | remora/io.py:62 | the stripped text is a slice with no blank at either end, and only blanks were removed |
| Text.FirstToken | remora/io.py:62 | the first whitespace-separated word, or NaN when there is none |
| Text.UpperProperties | remora/io.py:80 | upper-casing keeps the length and leaves no lower-case letter |
| Text.DropLeadingUnderscore | remora/io.py:81 | `^_` removes exactly one leading underscore and nothing else |
| ColumnSelect.FilterPrefixIff | remora/io.py:115 | the deterministic reading of the filter pattern accepts exactly the names some choice of the regular expression matches |
| ColumnSelect.SelectCols | remora/io.py:115-124 | a NaN name is an error naming the first such row; otherwise the names and offsets (`index - 1`) of the matching rows, position by position |
| ColumnSelect.SelectColsAligned | remora/io.py:121-124 | both lists have the same length, every returned name matches, and every matching row is returned with its offset |
| ColumnSelect.SelectColsAscending | remora/io.py:123 | with increasing column numbers the returned offsets increase |
| ColumnSelect.FirstUnnamed | remora/io.py:121 | the first row without a name, and none exactly when every row is named |
| ColumnSelect.CoordinatesSelected | remora/io.py:115 | the default pattern takes `X`, `Y` (also with a trailing newline) and not `CHI` or `XY` |
| ColumnSelect.FilterColumnSelected | remora/io.py:115 | the default pattern takes `F475W_chip1_COUNT` |
| ColumnSelect.QuadFilterSelected | remora/io.py:115 | the default pattern takes a `Q` filter such as `FQ672N_VEGA` |
| ColumnSelect.BareFilterRejected | remora/io.py:115 | a filter name without the closing `_` is not taken |
| ColumnSelect.LongDigitRunRejected | remora/io.py:115 | six digits are too many for a filter name |
| ColumnSelect.SelectExample | remora/io.py:115-124 | from `X`, `SHARP`, `F475W_chip1_COUNT` the default selection keeps `X` and the filter column with offsets 0 and 10 |
| Catalog.Without | remora/io.py:134 | the column list without one name, order kept, and unchanged when the name is absent |
| Catalog.Selected | remora/io.py:157-159 | the rows a selection keeps, exactly those in the table it accepts, and all rows with no selection |
| Catalog.Dataset.Drop | remora/io.py:134 | `drop` removes the name from the columns and the key from every row |
| Catalog.Dataset.AddColumn | remora/io.py:139-140 | `add_column` puts a new name last (an existing one keeps its place) and sets that value in every row |
| Catalog.Dataset.Select | remora/io.py:157-159 | `select` with name `__filter__` replaces the active selection and nothing else |
| Catalog.Dataset.Extract | remora/io.py:160 | `extract` is a new unfiltered table of the visible rows |
| Catalog.Dataset.Project | remora/io.py:143 | `ds[names]` is a new table with the named columns in the given order |
| Catalog.Concat | remora/io.py:160-161 | the concatenation holds the rows of each part in turn |
| Catalog.RestrictAll | remora/io.py:143 | selecting all of a table's columns changes no row |
| Coordinates.Others | remora/io.py:141-142 | the columns that are not among the first four, order kept |
| Coordinates.OthersWithSky | remora/io.py:133-142 | dropping and re-adding `RA`/`DEC` changes neither which other columns there are nor their order |
| Coordinates.WcsOrderShape | remora/io.py:141-143 | the result's columns are `RA, DEC, X, Y` followed by every other input column in its order, with no repeats and no other names |
| Coordinates.WcsOrderIdempotent | remora/io.py:132-143 | reordering an already reordered column list changes nothing |
| Coordinates.SkyRow | remora/io.py:138-140 | a row gains `RA`/`DEC` computed from its own `X`/`Y`, and keeps every other value |
| Coordinates.WithSkyIdempotent | remora/io.py:132-143 | computing sky coordinates for rows that already have them changes nothing |
| Coordinates.WithSkyAfterDrop | remora/io.py:133-140 | the new sky coordinates do not depend on the dropped ones |
| Coordinates.SkyColumnsRows | remora/io.py:138-140 | the two computed columns set each row's sky coordinates from that row's pixel coordinates |
| Coordinates.EvaluateXY | remora/io.py:138 | the `X` and `Y` columns, read from every row |
| Coordinates.DropSky | remora/io.py:133-136 | the guarded drops remove `RA` and `DEC` where present |
| Coordinates.AddSky | remora/io.py:138-140 | the table gains `RA`, `DEC` as its last columns, with every row's sky position from `toSky` |
| Coordinates.Reorder | remora/io.py:141-143 | a new table with the coordinate columns first and the same rows |
| Coordinates.AddWcs | remora/io.py:132-143 | without `X` or `Y` only the drops happen and the error names the missing column; otherwise the input gains recomputed sky columns and the result has the `add_wcs` column order and the sky-augmented rows |
| Merge.RoundHalfEven | remora/io.py:148 | the result is an integer nearest to the argument, the even one on a tie |
| Merge.NearestEvenUnique | remora/io.py:148 | only one integer is nearest with ties to even, so `round` is determined by that property |
| Merge.RoundExamples | remora/io.py:148 | ties go to the even neighbour: `2.5` to 2, `3.5` to 4, `-0.5` to 0 and `-1.5` to -2 |
| Merge.Lowest | remora/io.py:148 | `X.min()`: an element no greater than any other |
| Merge.Highest | remora/io.py:148 | `X.max()`: an element no smaller than any other |
| Merge.SplitPoint | remora/io.py:146-148 | an error exactly when a column is empty; otherwise the rounded mean of the left maximum and the right minimum |
| Merge.SplitPointBetween | remora/io.py:146-148 | with whole-pixel coordinates the split point lies between the left maximum and the right minimum |
| Merge.SplitPointOutside | remora/io.py:146-148 | not so in general: a left maximum of 0.1 and a right minimum of 0.2 split at 0 |
| Merge.CalcXmed | remora/io.py:146-148 | a missing `X` is an error, and so is a table with no visible row; otherwise an integer nearest (ties to even) to the mean of the left table's largest visible `X` and the right table's smallest |
| Merge.CalcXmedUnfiltered | remora/io.py:153-156 | on freshly opened tables the split point is taken over all rows |
| Merge.SelectedCount | remora/io.py:157-160 | a selection keeps as many rows as it accepts, one by one |
| Merge.MergedRows | remora/io.py:157-161 | a row is merged exactly when it is in table 1 with `X <= x0`, in table 2 within the ordered box, or in table 3 with `X >= x1` |
| Merge.MergedBlocks | remora/io.py:157-161 | the merged rows are table 1's survivors, then table 2's, then table 3's, each block in its table's order; the length is the sum of the counts, so boundary rows appear twice |
| Merge.MergedFit | remora/io.py:160-161 | the merged rows have the tables' columns |
| Merge.SplitPoints | remora/io.py:156 | the two split points exist exactly when `X` exists and all three tables have rows; the error says which |
| Merge.MergeSpec | remora/io.py:151-167 | the merge fails exactly when a split point or `Y` is missing, and otherwise has the `add_wcs` column order |
| Merge.MergeSpecAt | remora/io.py:156-162 | once both split points exist, the merge is the sky-augmented merged rows, or the missing-`Y` error |
| Merge.Cut | remora/io.py:157-160 | setting a selection and extracting gives the selected rows and leaves the table's data alone |
| Merge.Partition | remora/io.py:157-161 | the three selections are set on the inputs and the concatenation holds the merged rows |
| Merge.MergeAt | remora/io.py:157-162 | after the split points, the result is the sky-augmented merged rows under the `add_wcs` order, failing only without `Y` |
| Merge.MergeParallelPhot | remora/io.py:151-167 | the inputs keep their data and gain their selections; the result is `MergeSpec` of the tables as opened (same error, or a new table with exactly those columns and rows) |
| MergeExamples.SplitExample | remora/io.py:156 | tables `[1,5,10]`, `[8,12,20]`, `[18,25,30]` split at 9 and 19 |
| MergeExamples.MergedExample | remora/io.py:157-161 | those tables merge to `X` values `[1,5,12,25,30]` |
| MergeExamples.DuplicateExample | remora/io.py:156-161 | tables `[1,5]`, `[5,9]`, `[9,12]` split at 5 and 9 and merge to `[1,5,5,9,9,12]`, each boundary row twice |
| Sequences.FilterSubsequence | remora/io.py:157-160 | what a selection keeps is in the table's own order |
| Sequences.FilterFilter | remora/io.py:141-142 | a second, stricter filter sees only what the first let through |

## Left out

- Files and the terminal are not modelled: opening the `.columns` file, `vaex.open`, `export_hdf5`, `print` and `os.system`. The lines of the column file and the opened tables are parameters.
- `ascii_to_vaex` (`vaex.from_csv`) is outside the model: it only reads a file.
- `conv_pix_wcs` and the WCS file are not modelled. The pixel-to-sky transformation is the parameter `toSky`, applied point by point.
- The command-line block under `__main__` is not modelled; it only calls the modelled functions over files.
- `read_csv` details are not modelled: blank lines, quoting, comments and a line with more than one `". "` separator. A line is split at its first `". "`.
- `ColumnNames.ParseLine` accepts only a run of decimal digits as a column number and returns `BadIndex` otherwise. `read_csv` would instead keep `x` in `x. Object X` as a text label and `-1` in `-1. Object X` as a negative number, and `select_cols` would then give offset `-2` or fail at `cols.index - 1`. DOLPHOT writes positive decimal numbers only.
- `ColumnNames.ReadColfile`: an empty description (`1. `) is the empty text in the model, so the line gets a NaN name. pandas reads it as NaN instead, and `df_col.loc[is_single]` then fails on the NaN in the mask (`io.py` line 57).
- pandas 2.0 and later are not modelled. There `str.replace` treats its pattern literally by default, so `io.py` lines 77 and 81 would leave `.chip` and a leading `_` in place.
- `add_wcs`'s `firstcols` parameter (`io.py` line 132) is fixed to its default `RA, DEC, X, Y` (`Coordinates.FirstCols`). This is the value its only caller, `merge_parallel_phot` (`io.py` line 162), uses.
- `Text.Upper` upper-cases ASCII letters only; DOLPHOT descriptions are ASCII.
- Floating point is not modelled. Coordinates are exact rationals, so rounding a sum that a double cannot represent exactly may differ from the real program. NaN `X` values are not modelled either.
- The regular expressions are only the shapes `io.py` uses: ordered literal alternations for the rules, and the default `select_cols` pattern decided by hand. `select_cols` takes any predicate on names instead of an arbitrary pattern.
- Only the visible columns of a vaex table are modelled. Hidden and virtual columns and vaex's lazy evaluation are not.
- `Coordinates.AddWcs` requires a table without an active filter. This is the only way `merge_parallel_phot` calls it (on a fresh concatenation); on a filtered table vaex would evaluate only the visible rows.
- `Merge.MergeParallelPhot` requires three distinct tables with the same columns and no filter, as `vaex.open` of three DOLPHOT catalogues gives. Mismatched columns in the concatenation are not modelled.
- vaex's `min`/`max` of an empty column is the error `EmptyColumn("X")` rather than a NaN that `int(round(...))` then rejects.
