# One-hot encoding and co-occurrence of AI incident categories

This project models `aiie/data_extra_processing.py` in Dafny. The script reads
a table of AI incidents. It turns four multi-value text columns (technologies,
sectors, issues, transparency) into 0/1 indicator columns and merges synonymous
indicators. It then counts, for pairs of families, how many incidents carry
both labels, and reports the ten largest counts.

The model follows the script stage by stage:

- **Tokenizer** (`Strings`, `Tokenizer`): `clean_split_normalize`. It covers
  Python's `strip`, `lstrip` and `lower`, and `re.split(';|,', s)`.
- **Table operations** (`Tables`): a DataFrame as a value (`Table`) and as an
  object updated in place (`Frame`). Column assignment, drop, prefix selection
  and the column-wise outer-join `pd.concat` are modelled; `concat` matches rows
  by label.
- **Encoding** (`Encoding`): the vocabulary set, the dict of per-token 0/1 lists
  filled by the nested row-by-token loop, and the frame built from it.
- **Merging** (`Merging`, `MergeTables`): the merge loop and the four merge
  tables. Each group assigns the row-wise maximum of its sources to the
  canonical column, then drops the sources.
- **Pipeline** (`Pipeline`): `preprocess_column` as a whole, as a method on a
  `Frame` and as a function on values.
- **Co-occurrence** (`Cooccurrence`): the count matrix, the `max(axis=1) > k`
  row filter, `stack`, `sort_values` and `head(10)`, plus the seven blocks that
  apply them.

Two behaviours follow the code, not a looser reading of the script's intent:

- **The merge is strict.** Line 42 evaluates `encoded_df[old_names]`, which
  raises `KeyError` as soon as one listed source is not a column. A tolerant
  merge, which skips absent sources and ORs the ones present, is not what the
  code does. `Merging.ApplyGroup` returns `Err(KeyError(name))` for the first
  absent source.
- **A canonical name listed among its own sources does not survive its group.**
  Line 43 drops every listed source after the assignment, with
  `errors='ignore'`. When the canonical name is one of those sources, the
  freshly written column is dropped too, unless a later group writes it again
  (`Merging.MergesRemoveSources`, `MergeTables.UnclearUnknownDropped`).

Row alignment is stated as the code gives it:

- **Labels `0..n-1`:** the encoded block is labelled `0..n-1`, and
  `pd.concat(axis=1)` joins on labels. The output lines up row for row only
  when the input rows carry exactly those labels (`Pipeline.PreprocessAligned`).
- **Other labels:** `dropna(how="all")` at line 12 can leave other labels.
  `Tables.DroppedRowMisaligns` shows the resulting misalignment on a
  three-row example.

## Model

| member | source | states |
|---|---|---|
| Strings.LStrip | aiie/data_extra_processing.py:24 | `s.lstrip()` is no longer than `s` and does not start with whitespace |
| Strings.LStripSuffix | aiie/data_extra_processing.py:24 | what `lstrip` keeps is a suffix of the input and what it removes is all whitespace |
| Strings.RStrip | aiie/data_extra_processing.py:18 | `rstrip` is no longer than its input and leaves no trailing whitespace |
| Strings.RStripPrefix | aiie/data_extra_processing.py:18 | what `rstrip` keeps is a prefix of the input and what it removes is all whitespace |
| Strings.StripFixed | aiie/data_extra_processing.py:18 | a string that neither starts nor ends with whitespace is unchanged by `lstrip` and `rstrip` |
| Strings.Strip | aiie/data_extra_processing.py:18 | `value.strip()` is no longer than the input, and a non-empty result starts and ends with non-whitespace |
| Strings.StripEmpty | aiie/data_extra_processing.py:18 | the filter `if value.strip()` rejects exactly the pieces made only of whitespace |
| Strings.LowerChar | aiie/data_extra_processing.py:18 | one character lower-cased: upper-case ASCII letters move down by 32, everything else is unchanged, whitespace stays whitespace |
| Strings.Lower | aiie/data_extra_processing.py:18 | `.lower()` keeps the length, leaves no upper-case letter, and leaves every other character where it was |
| Strings.LowerIdempotent | aiie/data_extra_processing.py:18 | lower-casing twice is lower-casing once |
| Strings.StripOfLower | aiie/data_extra_processing.py:18 | a stripped string is still stripped after lower-casing |
| Strings.StripIgnoresLeadingSpace | aiie/data_extra_processing.py:18 | leading whitespace never reaches the result of `strip` |
| Strings.StripNoDelimiter | aiie/data_extra_processing.py:18 | stripping a piece without `;` or `,` yields a string without them |
| Strings.LowerNoDelimiter | aiie/data_extra_processing.py:18 | lower-casing never produces `;` or `,` |
| Strings.StripIdempotent | aiie/data_extra_processing.py:18 | stripping twice is stripping once |
| Strings.Delimiters | aiie/data_extra_processing.py:18 | the separators of a string, in order; each is `;` or `,` |
| Strings.Split | aiie/data_extra_processing.py:18 | `re.split(';|,', s)` yields one more piece than there are separators, and no piece holds a separator |
| Strings.SplitWhole | aiie/data_extra_processing.py:18 | text without a separator is a single piece |
| Strings.SplitJoin | aiie/data_extra_processing.py:18 | the pieces and the separators rebuild the input, so splitting loses nothing |
| Strings.SplitAppend | aiie/data_extra_processing.py:18 | splitting at a separator splits the two sides independently, in order |
| Strings.SplitLeadingSpace | aiie/data_extra_processing.py:18 | leading whitespace stays in the first piece |
| Tokenizer.PieceToken | aiie/data_extra_processing.py:18 | a piece that is not blank becomes a token: non-empty, stripped, lower-case, without separators |
| Tokenizer.Normalize | aiie/data_extra_processing.py:18 | the comprehension over the pieces yields at most one token per piece |
| Tokenizer.NormalizeTokens | aiie/data_extra_processing.py:18 | every element the comprehension yields is a token |
| Tokenizer.Tokenize | aiie/data_extra_processing.py:15-18 | a missing cell gives `[]`; text gives at most one token per piece |
| Tokenizer.TokenizeTokens | aiie/data_extra_processing.py:15-18 | every returned token is non-empty, equal to its own strip and lower-case, and free of `;` and `,` |
| Tokenizer.TokenSet | aiie/data_extra_processing.py:33-35 | the set `item in items` tests: empty for a missing cell, and every element a token |
| Tokenizer.NormalizeAppend | aiie/data_extra_processing.py:18 | normalizing two runs of pieces normalizes each, in order |
| Tokenizer.TokenizeAppend | aiie/data_extra_processing.py:15-18 | tokens come out in input order with duplicates kept: two texts joined by a separator give the tokens of the first, then those of the second |
| Tokenizer.LStripCell | aiie/data_extra_processing.py:24 | `.str.lstrip()` on one cell: text loses its leading whitespace, anything else becomes missing |
| Tokenizer.TokenizeIgnoresLStrip | aiie/data_extra_processing.py:24 | left-stripping a text or missing cell does not change its tokens |
| Tokenizer.TokenizeSingle | aiie/data_extra_processing.py:15-18 | text without separators gives exactly its stripped, lower-cased self |
| Tokenizer.NormalizeBlank | aiie/data_extra_processing.py:18 | pieces made only of whitespace give no token |
| Tokenizer.SplitBlank | aiie/data_extra_processing.py:18 | a text made only of whitespace and separators splits into whitespace-only pieces |
| Tokenizer.TokenizeBlank | aiie/data_extra_processing.py:15-18 | a cell made only of whitespace and separators gives no token |
| Tables.Without | aiie/data_extra_processing.py:43 | removing a set of labels keeps exactly the others, in order, without introducing repeats |
| Tables.WithoutOwn | aiie/data_extra_processing.py:46 | removing every element of a list leaves nothing |
| Tables.SetColumn | aiie/data_extra_processing.py:24 | `df[name] = col` sets that column, keeps every other column and the row labels, and adds the name only if it is new |
| Tables.DropColumns | aiie/data_extra_processing.py:46 | `df.drop(columns=...)` keeps exactly the other columns, unchanged, and keeps the row labels |
| Tables.LStripAll | aiie/data_extra_processing.py:24 | `.str.lstrip()` applied cell by cell, same length |
| Tables.LStripColumn | aiie/data_extra_processing.py:24 | line 24 replaces the named column by its left-strip; labels, names and the other columns stay |
| Tables.IndexOf | aiie/data_extra_processing.py:46 | the first position of a row label |
| Tables.IndexOfDistinct | aiie/data_extra_processing.py:46 | with unique labels, the position of the label at k is k |
| Tables.Reindex | aiie/data_extra_processing.py:46 | a column laid out on the joined labels: a label the table has brings its cell, any other gets a missing value |
| Tables.DistinctAppend | aiie/data_extra_processing.py:46 | two unique label lists with nothing in common join into a unique list |
| Tables.Concat | aiie/data_extra_processing.py:46 | `pd.concat(axis=1)` keeps the left labels, then adds those only the right has; the columns of both sides sit side by side, each laid out on the joined labels |
| Tables.ReindexSame | aiie/data_extra_processing.py:46 | laying a column out on its own labels gives it back |
| Tables.ConcatAligned | aiie/data_extra_processing.py:46 | when both sides carry the same labels, every column of the result equals its source column, row for row |
| Tables.ConcatNothing | aiie/data_extra_processing.py:46 | concatenating a frame with neither rows nor columns changes nothing |
| Tables.DroppedRowMisaligns | aiie/data_extra_processing.py:12 | after `dropna` removed a row (labels 0, 2 against 0, 1), the result has three rows; one record gets missing flags and a spurious row gets missing data |
| Tables.ColumnsWithPrefix | aiie/data_extra_processing.py:192-195 | `[col for col in df.columns if col.startswith(p)]` keeps exactly the columns with that prefix, without repeats |
| Tables.ColumnsWithPrefixAppend | aiie/data_extra_processing.py:192-195 | the selection keeps table order: selecting from two runs of columns is selecting from each, in turn |
| Tables.ColumnsWithPrefixAll | aiie/data_extra_processing.py:156 | when every column has the prefix, the selection is all of them, in order |
| Tables.ColumnsWithPrefixNone | aiie/data_extra_processing.py:156 | when no column has the prefix, the selection is empty |
| Tables.Frame.constructor | aiie/data_extra_processing.py:12 | a frame holding the given table |
| Tables.Frame.LStripInPlace | aiie/data_extra_processing.py:24 | a missing column raises `KeyError` and a column without text raises `AttributeError`, both leaving the frame as it was; otherwise the column is left-stripped in place and nothing else changes |
| Encoding.IndicatorName | aiie/data_extra_processing.py:29 | `f'{prefix}_{item}'` starts with `prefix_` and ends with the token |
| Encoding.IndicatorNameInjective | aiie/data_extra_processing.py:29 | different tokens get different indicator columns |
| Encoding.RowTokens | aiie/data_extra_processing.py:32-33 | the token set of every row, in row order |
| Encoding.Vocabulary | aiie/data_extra_processing.py:27-28 | the `unique_set` of a column: the union of its rows' token sets, every element a token |
| Encoding.UnionMembers | aiie/data_extra_processing.py:28 | an element is in the union exactly when one of the sets holds it |
| Encoding.VocabularyMembers | aiie/data_extra_processing.py:27-28 | the vocabulary is exactly the tokens that occur in some row |
| Encoding.VocabularyOfMissing | aiie/data_extra_processing.py:16-17 | missing cells contribute no token: a column of them has an empty vocabulary |
| Encoding.CollectVocabulary | aiie/data_extra_processing.py:27-28 | the `unique_set.add` loop over all rows collects exactly the tokens that occur in some row |
| Encoding.Flags | aiie/data_extra_processing.py:33-35 | a token's list has one 0/1 entry per row: 1 exactly when that row's cell has the token |
| Encoding.IndicatorSeq | aiie/data_extra_processing.py:29 | the indicator labels of the tokens, in iteration order, without repeats, exactly `{prefix_t}` |
| Encoding.EncodedBlock | aiie/data_extra_processing.py:38 | `pd.DataFrame(encoding_dict)` has one column per token holding its flags; it has one row per input row, or none when the vocabulary is empty |
| Encoding.EmptyLists | aiie/data_extra_processing.py:29 | the dict comprehension gives one empty list for each token's indicator label, and no other key |
| Encoding.AppendFlags | aiie/data_extra_processing.py:34-35 | the inner loop appends `int(item in items)` to every token's list and touches nothing else |
| Encoding.EncodeColumns | aiie/data_extra_processing.py:29-35 | after the row loop, the keys are exactly `{prefix_t}` and each list equals that token's flags |
| Encoding.EncodedMatches | aiie/data_extra_processing.py:38 | the filled lists are the columns of the encoded frame |
| Encoding.EncodeColumn | aiie/data_extra_processing.py:27-38 | vocabulary, column order (a permutation of the vocabulary) and encoded frame, as the code builds them |
| Merging.RowMax | aiie/data_extra_processing.py:42 | `.max(axis=1)` is in every row at least each column's value, and equal to one of them |
| Merging.RowMaxIsOr | aiie/data_extra_processing.py:42 | on 0/1 columns the maximum is the logical OR and stays 0/1 |
| Merging.RowMaxSameColumns | aiie/data_extra_processing.py:42 | the maximum does not depend on column order or repeats |
| Merging.Selected | aiie/data_extra_processing.py:42 | `encoded_df[old_names]` gives the listed columns, in the listed order |
| Merging.FirstAbsent | aiie/data_extra_processing.py:42 | every name before the returned position is a column, and the name at it is not |
| Merging.Assign | aiie/data_extra_processing.py:42 | `encoded_df[new] = col` sets that column and keeps the others |
| Merging.Drop | aiie/data_extra_processing.py:43 | `drop(columns=olds, errors='ignore')` keeps exactly the columns not listed, unchanged |
| Merging.ApplyGroup | aiie/data_extra_processing.py:41-43 | a group fails exactly when some source is absent, reporting an absent source; on success the rows are kept |
| Merging.ApplyGroupColumns | aiie/data_extra_processing.py:41-43 | the columns after a group are `(cols + {new}) - olds`, and the columns it does not write keep their values |
| Merging.ApplyGroupMax | aiie/data_extra_processing.py:42 | a surviving canonical column holds, in each row, the largest source value of that row |
| Merging.ApplyGroupFlags | aiie/data_extra_processing.py:42 | on 0/1 data the block stays 0/1, and a surviving canonical column is 1 exactly when one of its sources is |
| Merging.ApplyMerges | aiie/data_extra_processing.py:41-43 | the groups apply in table order, and success keeps the row count |
| Merging.ApplyMergesFlags | aiie/data_extra_processing.py:41-43 | a whole merge table keeps a 0/1 block 0/1 |
| Merging.ApplyMergesError | aiie/data_extra_processing.py:42 | the merge table fails only on a name that some group lists as a source |
| Merging.MergeGroupStep | aiie/data_extra_processing.py:42-43 | one iteration of the loop computes exactly one group |
| Merging.MergeColumns | aiie/data_extra_processing.py:41-43 | the loop over `merge_rename_operations.items()` computes the whole table in order, stopping at the first `KeyError` |
| Merging.ApplyMergesAppend | aiie/data_extra_processing.py:41-43 | merge tables compose, so a later group sees the results of earlier ones |
| Merging.RepeatedSourceHarmless | aiie/data_extra_processing.py:54 | repeating a listed source changes neither the result nor the error |
| Merging.KeysAfter | aiie/data_extra_processing.py:41-43 | the column names left by a merge table: the last group's sources are gone, and its canonical name remains exactly when it is not one of them |
| Merging.ApplyMergesKeys | aiie/data_extra_processing.py:41-43 | a successful merge table leaves exactly the columns obtained by adding each canonical name and removing each group's sources |
| Merging.KeysAfterOnlyAddCanonicals | aiie/data_extra_processing.py:41-43 | a column present after the merges was there before or is a canonical name |
| Merging.KeysAfterRemoveSources | aiie/data_extra_processing.py:43 | a source name is absent at the end unless a later group writes it again |
| Merging.MergesRemoveSources | aiie/data_extra_processing.py:43 | a canonical name listed among its own sources, and not written by a later group, is not a column of the merged block |
| Merging.MeaningOf | aiie/data_extra_processing.py:42 | the tokens a list of columns stands for together |
| Merging.MergedMeaning | aiie/data_extra_processing.py:41-43 | what each column stands for after the merge table; its columns are exactly those `KeysAfter` names |
| Merging.GroupSimulates | aiie/data_extra_processing.py:41-43 | a group keeps the block an indicator table; the canonical column stands for the union of what its sources stood for |
| Merging.MergesSimulate | aiie/data_extra_processing.py:41-43 | the merged block is the indicator table of the merged meaning over the same rows |
| MergeTables.TechnologyWellFormed | aiie/data_extra_processing.py:52-82 | every technology group lists at least one source |
| MergeTables.SectorWellFormed | aiie/data_extra_processing.py:85-95 | every sector group lists at least one source |
| MergeTables.IssueWellFormed | aiie/data_extra_processing.py:98-138 | every issue group lists at least one source |
| MergeTables.TransparencyWellFormed | aiie/data_extra_processing.py:141-149 | every transparency group lists at least one source |
| MergeTables.UnclearNotRewritten | aiie/data_extra_processing.py:52-82 | `tech_unclear/unknown` is written by the first technology group only |
| MergeTables.UnclearUnknownDropped | aiie/data_extra_processing.py:53 | a successful technology merge leaves no `tech_unclear/unknown` column, though the first group names it as canonical |
| MergeTables.FacialDuplicateHarmless | aiie/data_extra_processing.py:54 | the group that lists `tech_facial detection` twice acts as the one that lists it once |
| Pipeline.NumColumn | aiie/data_extra_processing.py:38 | a list of flags as numeric cells, position for position |
| Pipeline.BlockTable | aiie/data_extra_processing.py:38 | the encoded frame as a table labelled `0..rows-1`, with the same columns |
| Pipeline.MergedBlock | aiie/data_extra_processing.py:24-43 | a missing raw column raises `KeyError` and one without text `AttributeError`; otherwise the merge table is applied to the encoded block |
| Pipeline.MergedNames | aiie/data_extra_processing.py:29-43 | a merged column is an indicator of the family or a canonical name |
| Pipeline.Preprocess | aiie/data_extra_processing.py:22-48 | the call fails exactly when encoding and merging fail, with the same error |
| Pipeline.PreprocessOk | aiie/data_extra_processing.py:46 | a successful call returns the left-stripped table minus the raw column, concatenated with the merged block, whose columns are all new |
| Pipeline.PreprocessColumns | aiie/data_extra_processing.py:46 | the raw column is gone, every other column is kept with its values, and each added column is an indicator of the family or a canonical name |
| Pipeline.InitialMeaning | aiie/data_extra_processing.py:29 | before merging, column `prefix_t` stands for the token `t` alone |
| Pipeline.EncodedCell | aiie/data_extra_processing.py:35 | an encoded cell is 1 exactly when the row has the column's token |
| Pipeline.EncodedIndicates | aiie/data_extra_processing.py:32-38 | the encoded block is the indicator table of the vocabulary |
| Pipeline.VocabularyLStrip | aiie/data_extra_processing.py:24-28 | left-stripping does not change the vocabulary |
| Pipeline.MergesOfEmpty | aiie/data_extra_processing.py:38-42 | a block without columns fails on the first group's first source, or is returned unchanged by an empty table |
| Pipeline.RowTokensLStrip | aiie/data_extra_processing.py:24 | left-stripping does not change any row's tokens |
| Pipeline.MergedIndicates | aiie/data_extra_processing.py:24-43 | the merged block is the indicator table of the merged meaning over the left-stripped rows |
| Pipeline.PreprocessShape | aiie/data_extra_processing.py:46 | with labels `0..n-1` the result keeps the labels and the other columns, and each new column is a merged column of the same length |
| Pipeline.IndicatorCell | aiie/data_extra_processing.py:46 | a cell of an indicator table, as a number, is 1 exactly when the row mentions what the column stands for |
| Pipeline.PreprocessAligned | aiie/data_extra_processing.py:22-48 | with labels `0..n-1` the result has exactly the input rows. Each new column is 1 in row i exactly when row i's left-stripped cell has a token the column stands for after merging, and 0 otherwise. A text cell has the same tokens as its left-strip (`Tokenizer.TokenizeIgnoresLStrip`), and any other cell has none |
| Pipeline.PrefixSelectsMerged | aiie/data_extra_processing.py:156 | selecting `prefix_` after the call gives exactly the merged block's columns, in its order |
| Pipeline.PreprocessColumn | aiie/data_extra_processing.py:22-48 | a missing column raises `KeyError`, and a column without text raises `AttributeError`; both leave the frame unchanged. Otherwise the column is left-stripped in place, the returned set is the pre-merge vocabulary, and the result is the value `Preprocess` describes |
| Cooccurrence.AndSum | aiie/data_extra_processing.py:206 | the sum of `a & b` over n rows is at most n |
| Cooccurrence.Count | aiie/data_extra_processing.py:206 | `(df[a] & df[b]).sum()` is at most the number of rows |
| Cooccurrence.AndSumCountsBoth | aiie/data_extra_processing.py:206 | the sum counts exactly the rows where both flags are 1 |
| Cooccurrence.AndSumSymmetric | aiie/data_extra_processing.py:206 | the sum does not depend on the order of the two columns |
| Cooccurrence.CountMeaning | aiie/data_extra_processing.py:203-207 | cell (a,b) is the number of incidents carrying both labels, lies between 0 and the row count, and equals cell (b,a) |
| Cooccurrence.CountRow | aiie/data_extra_processing.py:204-207 | one matrix row holds the count of its label against every column label |
| Cooccurrence.Occurrence | aiie/data_extra_processing.py:200-207 | the matrix has one row per row label, one count per column label, each the pair's count |
| Cooccurrence.OccurrenceTranspose | aiie/data_extra_processing.py:249-256 | the matrix built for (B,A) is the transpose of the one for (A,B) |
| Cooccurrence.FillRow | aiie/data_extra_processing.py:205-207 | the inner loop writes the counts of one row label |
| Cooccurrence.BuildOccurrence | aiie/data_extra_processing.py:200-207 | the zero matrix filled cell by cell equals the count matrix |
| Cooccurrence.Max | aiie/data_extra_processing.py:211 | a row's maximum is at least each count and equal to one of them |
| Cooccurrence.Keeps | aiie/data_extra_processing.py:211 | `max(axis=1) > k` for one row holds exactly when some count exceeds k, hence never for a row without columns |
| Cooccurrence.Threshold | aiie/data_extra_processing.py:211 | the filter keeps exactly the rows whose maximum exceeds k, unchanged |
| Cooccurrence.ThresholdAppend | aiie/data_extra_processing.py:211 | the filter keeps row order |
| Cooccurrence.Filtered | aiie/data_extra_processing.py:211 | the filtered matrix keeps the columns and exactly the passing rows |
| Cooccurrence.RowEntries | aiie/data_extra_processing.py:235 | one row stacked: one (row, column, count) entry per column, in column order |
| Cooccurrence.Stack | aiie/data_extra_processing.py:235 | the stack has rows × columns entries |
| Cooccurrence.StackIndex | aiie/data_extra_processing.py:235 | the stack is row-major: cell (i,j) sits at position i·|cols|+j |
| Cooccurrence.StackMembers | aiie/data_extra_processing.py:235 | every stacked entry is a cell of the matrix |
| Cooccurrence.Insert | aiie/data_extra_processing.py:239 | inserting into a non-increasing list keeps it non-increasing and adds exactly that entry |
| Cooccurrence.Rank | aiie/data_extra_processing.py:239 | one ranking: a permutation of the entries with counts non-increasing |
| Cooccurrence.ProjectMultiset | aiie/data_extra_processing.py:239 | lists with the same elements have the same multiset of counts |
| Cooccurrence.SortedHeads | aiie/data_extra_processing.py:239 | two non-increasing lists with the same elements start with the same value |
| Cooccurrence.SortedUnique | aiie/data_extra_processing.py:239 | a non-increasing list is determined by its elements |
| Cooccurrence.RankingCounts | aiie/data_extra_processing.py:239 | any two rankings of the same entries list the same counts in the same order; only ties may be ordered differently |
| Cooccurrence.Head | aiie/data_extra_processing.py:242 | `head(10)` is the first `min(10, len)` entries |
| Cooccurrence.HeadIsLargest | aiie/data_extra_processing.py:242 | the head holds entries of the input, and nothing left out has a larger count than anything kept |
| Cooccurrence.TopOccurrences | aiie/data_extra_processing.py:200-242 | one block's report, the matrix filtered, stacked, ranked and cut: at most ten entries |
| Cooccurrence.KeptRowSound | aiie/data_extra_processing.py:211 | a kept row is the count row of a row label, and one of its counts exceeds the threshold |
| Cooccurrence.TopOccurrencesSound | aiie/data_extra_processing.py:200-242 | every reported entry names a row label and a column label with their true count, and its row passed the threshold |
| Cooccurrence.StudyReport | aiie/data_extra_processing.py:192-242 | one of the seven blocks (`Studies`, lines 198-533), with its families chosen by prefix: at most ten entries, each a pair from the two families with its true count |
| Cooccurrence.StudiesTransposed | aiie/data_extra_processing.py:249-256 | the second block swaps the families of the first, and its matrix is the transpose of the first block's |

## Left out

- Reading and writing CSV files (lines 12 and 187) and the pandas display options (lines 7-9) are I/O and configuration. The table starts as a value.
- The heatmaps (seaborn and matplotlib, e.g. lines 213-231) are left out: they draw, and compute nothing the rest uses.
- The `print` calls (lines 153-175, 242 and the later blocks) are left out. The sizes they print are `|vocab|` and the lengths of the prefix selections, which the model does compute.
- The driver sequence at lines 150-175 is not modelled: no member makes the four `preprocess_column` calls in a row. `Pipeline.PreprocessColumn` models one call; each later call would have to meet `NoClash` on the previous result.
- `Cooccurrence.StudyReport` and `Cooccurrence.Studies` give the seven blocks (lines 198-533) as data and a function. `to_string(index=False)` formatting is left out.
- Strings.Lower: lower-cases only the ASCII letters `A`-`Z`. Python's `str.lower` also maps other Unicode letters. Unicode case mapping is not modelled.
- Tokenizer.IsRawCell: numeric cells are excluded, so the tokenizer only sees text or missing cells. After a successful line 24 every cell is one of these (`Tokenizer.LStripCell`): on a column of text, `.str.lstrip()` turns the non-text cells into NaN.
- Pipeline.PreprocessColumn: cells carry no pandas dtype, so whether `.str` is available is decided from the cells. `Tables.NoStrAccessor` treats a column with rows but no text as numeric (how `read_csv` types it), which raises `AttributeError`, and any other column as text. A column built some other way, such as an object column of only missing values, may behave differently in pandas.
- Merging.ApplyGroup: on a missing source it reports one absent name, the first in list order. pandas' `KeyError` message lists every absent name.
- Pipeline.NoClash: the model's table holds one column per label, so it cannot hold duplicate labels. `preprocess_column` therefore requires that no passthrough column starts with `prefix_` or equals a canonical name. pandas would allow such duplicates.
- Encoding.EmptyLists: the iteration order of `unique_set` (line 29) is Python's hash order. It is not modelled; any order of the vocabulary is allowed, and it is exposed as the `order` result.
- Cooccurrence.IsRanking: `sort_values` uses an unstable quicksort, so the order among equal counts is left open. `Cooccurrence.Rank` is one admissible ranking, and `Cooccurrence.RankingCounts` shows that every admissible ranking lists the same counts.
- Cooccurrence.FlagColumns: the count matrix assumes the selected columns hold the numbers 0 and 1. A misaligned concat (`Tables.DroppedRowMisaligns`) leaves missing values, and with them pandas float columns. `&` and `.sum()` on such columns are not modelled.
- Cooccurrence.BuildOccurrence: `.loc[label, label]` writes by label. The model writes by position. The results agree even with repeated labels, because equal labels give equal counts.
- Pipeline.PrefixSelectsMerged: the result holds under the hypothesis `Merging.CanonicalsPrefixed`, that every canonical name starts with `prefix_`. That fact holds for the four literal merge tables but is not proved for them: checking string prefixes of the long literal tables exceeds the solver budget.
- pandas dtypes are not modelled: the encoded flags are `int64` and NaN is a float. Integers are unbounded, and counts cannot exceed the row count.
