# Cable-list import: header resolution, table selection and column mapping

This project models the two computational cores of a tool that imports
cable lists from PDF files into an Excel worksheet, and proves properties
of the model in Dafny.

**The extraction server (`main.py`).**
- `HEADER_MAP` is an ordered dictionary. It maps each canonical field to its known spellings.
- `match_header` resolves the text of a cell to the first field one of whose lower-cased spellings is close to the stripped, lower-cased text.
- `make_unique` de-duplicates column labels.
- `extract_data_from_pdf` locates the header row of a document in two ways:
  - a document-wide search for the row with the most resolving cells, accepted at 10 or more;
  - a fallback that takes the first row with at least 6 resolving cells whose rows below it form a non-empty frame.
- `map_columns_to_headers` merges the frame's columns into the canonical fields. The measurement columns are assigned by position: the first goes to `Metr.(von)`, every later one to `Metr.(bis)`.

**The Excel add-in (`taskpane.js`).**
- `normalizeLabel` lower-cases a label and keeps only its ASCII letters and digits.
- `columnAliases` is the alias table for Excel headers.
- `createHeaderMapWithAliases` maps each Excel header to a key of the server's result, via the header's alias list.
- Four pieces are lifted out of the UI functions:
  - the merge of saved mappings into the created header map;
  - the combination of several server results;
  - the preview grid;
  - the assembly of the worksheet rows.

**How the model is written.**
- Loops of the source are Dafny methods with loop invariants. Each method's `ensures` ties its result to a recursive specification function, and lemmas prove what the source promises about that function.
- Python dictionaries and JavaScript objects whose key order can be observed are an ordered map (`OrderedMaps.OMap`): a key list plus a map.
- Raised exceptions are `Result` values:
  - pandas' `ValueError` for a row-width mismatch is `ShapeMismatch`;
  - the failing `tolist()` on a duplicated label is `DuplicateLabel`;
  - JavaScript's `TypeError` is `TypeError`.
- difflib's similarity test is a parameter `close`. Its one known property, that every string is close to itself, is a precondition of the lemmas that need it.
- Each page's `extract_tables()` result is an input. `None` stands for a call that raised.

The system's design description mentions more strategies: a column-oriented fallback, a two-row-header fallback, and position-based and OCR extraction. None of them exists in this source, so the model follows the source and has only the row-based search and the row-level fallback.

## Model

| member | source | states |
|---|---|---|
| HeaderResolver.KeysDistinct | main.py:22-37 | No canonical field of the dictionary is listed twice, so a field name determines its position |
| HeaderResolver.MetrSynonymsShared | main.py:29-32 | `Metr.(von)` (entry 6) and `Metr.(bis)` (entry 9) list exactly the same synonyms |
| HeaderResolver.FirstAcceptingFrom | main.py:55-57 | The search returns an entry at or after the start that accepts the text, and no entry before it accepts; it returns None only when no remaining entry accepts |
| HeaderResolver.MatchIn | main.py:52-58 | A non-string cell gives None. Otherwise the result is a key of the dictionary; it is Some exactly when some entry accepts the stripped, lower-cased text; and it is the key of the first such entry, so later entries lose ties |
| HeaderResolver.ExactSpellingResolvesAtOrBefore | main.py:54-57 | A text whose stripped, lower-cased form is a lower-cased spelling of entry k always resolves, to entry k or to an earlier entry |
| HeaderResolver.MetrToNeedsItsOwnName | main.py:55-57 | A text resolves to `Metr.(bis)` only if it is close to the lower-cased key `metr.(bis)` itself, not merely to one of the synonyms it shares with `Metr.(von)` |
| ColumnLabels.MakeUnique | main.py:39-50 | The result is as long as the input. Label i is the string form of cell i, suffixed `_k` when that label occurred k ≥ 1 times before it, counted per label |
| ColumnLabels.CountedStep | main.py:44-49 | The `seen` counter of each label met is one less than its occurrences so far. A repeated label gets label_(counter+1), a new one keeps its text and starts at 0 |
| ColumnLabels.FirstOccurrenceKept | main.py:47-49 | A label met for the first time keeps its text |
| ColumnLabels.NoRepeatsUnchanged | main.py:42-49 | When no label repeats, the result is the input's string forms, unchanged |
| ColumnLabels.GeneratedNameCanCollide | main.py:44-46 | Generated names are not checked against other labels: `a, a, a_1` becomes `a, a_1, a_1` |
| Frames.BuildFrame | main.py:89 | Construction succeeds exactly when there are no rows or the widest row has as many cells as there are labels. Shorter rows are padded with None; the frame keeps the labels and one row per input row |
| Frames.ColumnValues | main.py:139 | Reading a column succeeds exactly when its label occurs once among the labels, and then yields the column's present cells, top to bottom |
| TableSelection.SelectFromIsFirstMaximum | main.py:79-83 | The search ends with a score no row exceeds. It keeps its starting state unless some row beats it, and otherwise keeps the first row that reaches the final score (strict `>`) |
| TableSelection.BestHeaderRowIsFirstMaximum | main.py:65-83 | Over the whole document no row scores above the kept score, and every earlier row scores strictly less than the kept row. No row is kept exactly when the kept score is 0 |
| TableSelection.ScanTable | main.py:78-83 | The row loop of one table performs the specified search over that table's rows, top to bottom |
| TableSelection.ScanPage | main.py:77-83 | The table loop of one page performs the specified search over its tables' rows, table by table |
| TableSelection.FindHeaderRow | main.py:65-83 | The page loop yields the specified best row of all pages. A page whose extraction raised or that has no tables contributes nothing |
| TableSelection.PrimaryNeedsTen | main.py:85 | When every row scores below 10, the row-based strategy yields no frame |
| TableSelection.BestRowInTable | main.py:86 | The kept row is a row of its table, so slicing the table from it starts with that row |
| TableSelection.FallbackIsFirstHit | main.py:105-121 | The fallback yields nothing exactly when no row is accepted, and otherwise the frame of the first accepted row in document order |
| TableSelection.FallbackInTable | main.py:105-123 | The row loop returns at the first non-empty row with at least 6 resolving cells whose rows below build a non-empty frame; a refused build moves on |
| TableSelection.FallbackInPage | main.py:105-123 | The table loop of a page returns the first accepted row's frame of its tables |
| TableSelection.FallbackSearch | main.py:96-123 | The fallback returns the first accepted row's frame over all pages, skipping pages whose extraction raised |
| TableSelection.ExtractData | main.py:60-126 | The extraction yields the row-based frame when the best row scores at least 10 and its frame builds, and otherwise the fallback's result; None stands for the empty DataFrame |
| FieldMerger.FieldIsKey | main.py:134-144 | Every field a column is merged into is a key of the header dictionary |
| FieldMerger.PlainFeeds | main.py:133-140 | The first loop reads only columns that resolve to a field other than the two measurement fields, each into the field it resolves to |
| FieldMerger.MetrColumns | main.py:135-136 | The measurement columns set aside are columns resolving to `Metr.(von)` or `Metr.(bis)`, in column order |
| FieldMerger.PlainFeedsCover | main.py:138-140 | Every column resolving to a non-measurement field is read by the first loop |
| FieldMerger.MetrColumnsCover | main.py:135-136 | Every column resolving to a measurement field is set aside |
| FieldMerger.MetrFeeds | main.py:141-144 | The second loop reads the first set-aside column into `Metr.(von)` and every later one into `Metr.(bis)` |
| FieldMerger.FeedsWithinFrame | main.py:133-144 | Every read names a column that resolves to a field, and reads into that field unless it is one of the measurement columns |
| FieldMerger.FeedsCover | main.py:133-144 | Every column that resolves to a field is read |
| FieldMerger.ExtendEntry | main.py:140 | `setdefault(k, []).extend(vs)` creates k if absent, appends vs under k and leaves other keys unchanged |
| FieldMerger.MergeFeedsOk | main.py:139-142 | The reads succeed exactly when every read column's label is unique |
| FieldMerger.MergeFeedsKeys | main.py:140-144 | New fields follow the existing ones in order of their first read |
| FieldMerger.MergeFeedsEntries | main.py:139-144 | After the reads each field holds what it held, followed by the present values of the columns read into it, in reading order |
| FieldMerger.MergeColumnsOk | main.py:133-144 | Merging fails exactly when a column that resolves to a field has a label shared with another column |
| FieldMerger.MergeColumnsContents | main.py:133-145 | The fields come in order of first read, each is a resolved or measurement field, and each holds the present values of its columns in reading order |
| FieldMerger.MapColumnsContents | main.py:130-145 | map_columns_to_headers fails exactly when a column that resolves to a field shares its label. Otherwise every field is a key of the dictionary, fields come in order of first read, and each holds the present values read into it; unresolved columns and None values are dropped |
| FieldMerger.MetrFeedsCollect | main.py:141-144 | The second loop collects the first measurement column's values for `Metr.(von)` and all later ones' values for `Metr.(bis)` |
| FieldMerger.PlainFeedsSkipMetr | main.py:135-137 | The first loop contributes nothing to the measurement fields |
| FieldMerger.MetrTargets | main.py:141-144 | `Metr.(von)` is filled exactly when there is a measurement column, and `Metr.(bis)` exactly when there are at least two |
| FieldMerger.MetrPositional | main.py:135-144 | Whatever a measurement column resolves to, the first fills `Metr.(von)` and the later ones fill `Metr.(bis)` in column order; neither field appears without such columns |
| FieldMerger.PlainColumn | main.py:134-140 | One pass of the first loop either raises as the whole merge does, or leaves the loop state for the next column |
| FieldMerger.ReadPlainColumns | main.py:133-140 | The first loop yields the specified merge of the non-measurement reads, or its error, and the measurement columns in order |
| FieldMerger.ReadMetrColumns | main.py:141-144 | The second loop extends the first loop's result by the positional measurement reads, or raises their error |
| FieldMerger.MapColumnsToHeaders | main.py:130-145 | The two loops compute the specified merge of the frame's columns |
| OrderedMaps.Put | main.py:140 | Assignment to an insertion-ordered dictionary: a new key is appended at the end, a present key keeps its place, and the key list stays duplicate-free |
| UnicodeText.TrimBy | main.py:54 | The result of strip()/trim() is no longer than the text and neither of its ends is white space. It is empty exactly when the text is all white space, and unchanged when neither end of the text is white space |
| UnicodeText.TrimByIsInfix | main.py:54 | strip()/trim() yields a contiguous piece of the text with only white space before and after it, so it removes exactly the longest white-space prefix and suffix |
| ColumnAliases.KeepAlnum | taskpane.js:12 | The case-insensitive filter keeps only ASCII letters and digits, all taken from the input |
| ColumnAliases.NormalizeLabel | taskpane.js:11-13 | A normalised label contains only lower-case ASCII letters and digits |
| ColumnAliases.NormalizeIdempotent | taskpane.js:11-13 | Normalising twice equals normalising once |
| ColumnAliases.ColumnAliasesSafe | taskpane.js:15-30 | columnAliases has no key `__proto__`, and none of its aliases normalises to `constructor` |
| ColumnAliases.NormalizeMappedKeys | taskpane.js:48-51 | The first loop files each mapped key under its normalised label |
| ColumnAliases.NormIndexLastWins | taskpane.js:49-51 | normMapped holds exactly the normal forms of the mapped keys. Under each is the last mapped key in list order with that normal form |
| ColumnAliases.NormIndexSound | taskpane.js:49-51 | Every normMapped entry is a mapped key whose normal form is the entry's name |
| ColumnAliases.FirstAliasFrom | taskpane.js:58-65 | The alias search yields the target of an alias none of whose predecessors has a target, or None when no alias has one |
| ColumnAliases.FirstAliasHit | taskpane.js:58-65 | The alias loop with its early break computes the first alias target |
| ColumnAliases.AddHeadersOk | taskpane.js:53-68 | The header loop succeeds exactly when the lookup of every entered header's trimmed text succeeds |
| ColumnAliases.AddHeadersKeys | taskpane.js:54-67 | The map's keys are exactly the entered headers (defined, not blank after trim), keyed by their untrimmed text |
| ColumnAliases.AddHeadersValues | taskpane.js:57-67 | Every entry holds what the lookup gives for its trimmed key |
| ColumnAliases.HeaderMapContents | taskpane.js:46-71 | As written, the map raises exactly when some entered header trims to an inherited Object.prototype name that is no alias key. Otherwise it has one entry per entered header: the first alias target of its trimmed text, or null when that text is no alias key |
| ColumnAliases.HeaderMapValuesAreMappedKeys | taskpane.js:49-65 | A non-null value is a mapped key whose normal form equals that of the first alias that hits |
| ColumnAliases.CreateHeaderMapWithAliases | taskpane.js:46-71 | The two loops compute the header map as written, including its TypeError |
| ColumnAliases.ToStringHeaderRaises | taskpane.js:57-59 | The Excel header `toString` makes the source raise with columnAliases |
| ColumnAliases.OwnAliasesAgree | taskpane.js:57 | The corrected lookup, which consults own alias keys only, never raises and agrees with the source wherever the source does not raise |
| ColumnAliases.OwnAliasesResolve | taskpane.js:53-67 | With the corrected lookup every entered header has one entry: null when its trimmed text is no own alias key, else its first alias target |
| ColumnAliases.ToStringHeaderMapsToNull | taskpane.js:57-67 | With the corrected lookup the header `toString` maps to null |
| ExcelRows.MergedWithSaved | taskpane.js:272-276 | The merge keeps the header map's keys. An entry changes only when it is null and a truthy saved value exists, and then it takes that value; every such entry is filled. Saved keys absent from the map are ignored |
| ExcelRows.MergeIdempotent | taskpane.js:272-276 | Merging the same saved mappings twice equals merging once |
| ExcelRows.MergeSaved | taskpane.js:272-276 | The loop over the saved keys computes the merge |
| ExcelRows.AddResultOk | taskpane.js:193-194 | The key loop of one result raises exactly when one of its keys is an inherited Object.prototype name |
| ExcelRows.AddResultKeys | taskpane.js:193-194 | The key loop adds new keys in order of first appearance |
| ExcelRows.AddResultValue | taskpane.js:193-194 | The key loop appends the result's array to what the combined object held under each key |
| ExcelRows.CombineOk | taskpane.js:191-196 | The combine raises exactly when some result has an inherited Object.prototype name as a key |
| ExcelRows.CombineKeys | taskpane.js:191-196 | The combined keys are the results' keys in order of first appearance across files |
| ExcelRows.CombineValue | taskpane.js:191-196 | Each combined key holds what it held, then the results' arrays under it, in file order |
| ExcelRows.CombinedResults | taskpane.js:191-196 | The combine raises exactly when some result has a prototype-name key. Otherwise keys follow first appearance, and each key holds the concatenation of the results' arrays in file order, whose length is the sum of their lengths |
| ExcelRows.CombineResults | taskpane.js:191-196 | The nested loops compute the specified combine |
| ExcelRows.MaxFrom | taskpane.js:215 | The maximum column length is an upper bound of every column's length and is reached by some column; over no columns it is 0 |
| ExcelRows.PreviewSize | taskpane.js:214-235 | The preview has as many rows as the longest column. Every value is shown in the row of its index and the column of its key, and some column reaches the last row |
| ExcelRows.PreviewGrid | taskpane.js:214-235 | The header row is the result's keys in order, and body row i has, per key, the key's i-th value or `""` |
| ExcelRows.BuildRow | taskpane.js:283-289 | The cell loop raises exactly when some worksheet header reads a missing array. Otherwise it yields one cell per header: value i of the header's column, or `""` |
| ExcelRows.AssembleRows | taskpane.js:281-293 | The row loop computes the rows as written, including the TypeError of a missing column |
| ExcelRows.KeptRowsShape | taskpane.js:281-293 | At most maxRows rows are emitted, each with exactly colCount cells and a non-empty cell among them |
| ExcelRows.KeptRowsAreNonBlankRows | taskpane.js:281-293 | Every emitted row is a grid row, and every grid row with a non-empty cell is emitted |
| ExcelRows.KeptRowsPrefix | taskpane.js:282-292 | Rows are emitted in grid order: those kept from fewer grid rows come first |
| ExcelRows.AssemblyRaises | taskpane.js:286-288 | As written, assembly raises exactly when there is a row to build and some header maps to a truthy pdf key that is neither in the result nor an inherited name. Otherwise it yields the intended rows |
| ExcelRows.MissingSavedKeyRaises | taskpane.js:272-288 | A saved mapping `Bemerkung → Bemerkung` fills a null entry. With a result lacking `Bemerkung`, the source raises, while the intended rows are `[["K1", ""]]` |
| ExcelRows.CreatedMapOwnsProtoHeaders | taskpane.js:271-276 | A created and merged header map has every worksheet header that names an Object.prototype member as an own key |

## Left out

- The FastAPI endpoint, CORS middleware, temporary file and HTTP status mapping (main.py:13-21, 147-159): I/O.
- pdfplumber: each page's `extract_tables()` result is an input, `None` when the call raised. So the model does not capture that the fallback loop runs after the `with pdfplumber.open` block has closed the file.
- The second, unreachable `return` (main.py:128), and `warnings`: no behaviour.
- difflib: `get_close_matches(t, candidates, n=1, cutoff=0.7)` is non-empty exactly when some candidate is close to t. Closeness is the parameter `close`, of which only reflexivity is assumed (a ratio of 1.0 for equal strings). The floating-point ratio is not modelled.
- pandas beyond what the code relies on is not modelled:
  - building a frame from row lists;
  - `DataFrame.empty`;
  - `df[col].dropna().astype(str).tolist()`.
  `pd.concat` of the single collected frame is the frame itself. Cells are strings or None, as pdfplumber delivers them.
- Excel: `str(cell)` of a non-string cell other than None is not modelled.
- match_header is evaluated once per label up front, which is equivalent because it is a pure function of the label.
- Python's `str.lower()` and JavaScript's `toLowerCase()` are modelled for these characters only:
  - ASCII and the Latin-1 capitals;
  - U+0130, which becomes two characters;
  - the Kelvin sign.
  All other characters are left unchanged, including the Latin letters beyond Latin-1 (such as Ā, Ł, ẞ) and the Ångström sign U+212B, which the source lower-cases. normalizeLabel keeps only ASCII letters and digits, where the model is exact.
- JavaScript objects order integer-like keys ("0", "12") before the others. The ordered maps keep plain insertion order for every key.
- The DOM, the overlay, `alert`, `showError`, `Office.onReady`, `fetch`, the async upload loop (taskpane.js:159-182), `localStorage` (taskpane.js:32-44), and `Excel.run` with its range and formatting calls (taskpane.js:251-304): UI, network and foreign APIs.
- resolveMissingMappings (taskpane.js:73-143) is left out: it is UI. So assembly takes any header map in which every worksheet header naming an Object.prototype member is an own key (`ProtoHeadersOwn`); CreatedMapOwnsProtoHeaders shows that the created and merged map meets this.
- Excel headers are strings or undefined: `None` stands for an undefined header only, which reads key `"undefined"` (`ExcelRows.HeaderKey`). A null header, which would read key `"null"`, is not modelled.
- A numeric or boolean header cell, which the header range can deliver (taskpane.js:254-258), makes createHeaderMapWithAliases throw a TypeError at `excelHeader?.trim()` (taskpane.js:54). The model's headers cannot express such a cell, so this error path is not modelled.
- Saved mapping values are strings or null (`None`); a saved value of another type is not modelled.
- The `colCount === 0` return (taskpane.js:259) gives the same rows as an empty header list.
- The `dataRows.length === 0` return (taskpane.js:295) and the writing of the rows are not modelled.
- `Math.max()` over no columns is `-Infinity`; no row loop runs, which the model expresses as a maximum of 0.
- ColumnAliases.CreateHeaderMapWithAliases: requires an alias table with no own key `__proto__` and no alias normalising to `constructor`, the one inherited name a normalised label can spell. ColumnAliasesSafe proves columnAliases meets this; for other tables the model does not capture the inherited values these names would read.

## Findings

| source | as written | input that shows it | evidently intended | confidence | as-written member | corrected member |
|---|---|---|---|---|---|---|
| taskpane.js:57-59 | `aliases[cleaned] \|\| []` reads inherited members of Object.prototype, and `for...of` over a function raises TypeError | Excel header cell `toString` (or `constructor`, `valueOf`, …) with columnAliases | A header that is no alias key maps to null | not executed | ColumnAliases.ToStringHeaderRaises | ColumnAliases.OwnAliasesAgree |
| taskpane.js:286-288 | `mapped[pdfKey]` is undefined for a saved pdf key that the current result lacks, and `colData[i]` raises TypeError | saved `{"Bemerkung": "Bemerkung"}`, worksheet headers `Kabelnummer, Bemerkung`, result `{"Kabelnummer": ["K1"]}` | A missing pdf key yields an empty column | not executed | ExcelRows.MissingSavedKeyRaises | ExcelRows.AssemblyRaises |
