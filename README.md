# excel_comment_orm (`exco`) in Dafny

`exco` reads Excel templates whose cell comments carry extraction
annotations. A comment holds one or more blocks between a start marker and
the end marker `--}}`. Each block is a YAML mapping that describes how to
extract data relative to the comment's cell:

- which cell to read (a *locator*);
- which *assumptions* the cell must meet;
- how to *parse* it, with a *fallback* value when that fails;
- which *validations* the parsed value must pass.

This project models the core of that pipeline and proves what it promises:

- **Annotation blocks** (`exco_block.dfy`, module `ExcoBlocks`).
  - `from_string` is an imperative scanner over the comment's lines. It is proved equal to a reference definition built from the marker lines (`Blocks`).
  - That definition is characterised by lemmas:
    - blocks exist exactly when the markers pair up;
    - each block spans one start/end pair, in order, and holds the text strictly between them;
    - each of the three exceptions is raised for the malformed nesting it names.
  - Line splitting (`splitlines(keepends=True)`) and `strip()` are in `text.dfy`.
- **Sheets and locators**.
  - `grid.dfy` holds a finite grid of cell values with merged ranges and `str(cell.value)`.
  - `sheet_scan.dfy` holds the shared row-major first-match scan.
  - The three built-in locators are `RightOfLocator`, `RightOfRegexLocator` and `SearchBelowOfRegexLocator`, each a method proved against the first match and the merged range.
- **The cell extraction task** (`cell_extraction_task.dfy`): the locate → assume → parse → validate pipeline. Lemmas cover what each exit path returns and when the result is ok.
- **Specification classes**: `APVSpec`, `CellExtractionSpec`, `TableExtractionSpec`, `TableEndConditionSpec`, `TableItemDirection` and `ValidatorSpec`.
  - Each is read from parsed YAML (`Data` in `spec_data.dfy`).
  - The model covers the key checks, the defaults, later-wins keying of validators, assumptions and columns, and `deref`, which rewrites strings and keeps every shape.
- **`ExcelProcessorSpec`**: counting specifications and checking their keys are unique, as loops proved against set-based definitions.

Errors the Python code raises are values of a `Result` type. `Base.Result` is `Ok` or `Err`. `ExcoBlocks.BlockError` stands for `TooManyBeginException`, `TooManyEndException` and `ExpectEndException`. `SpecData.SpecError` stands for `KeyError`, `ExcoBlockContainsExtraKey`, `TypeError`, `AttributeError` and `ValueError`.

## Model

All source paths are under `src/exco/`.

| member | source | states |
|---|---|---|
| ExcoBlocks.FromString | src/exco/exco_template/exco_block.py:28-60 | The line-by-line scanner returns exactly what the reference `Blocks` gives for the comment's lines: the same blocks, or the same exception at the same line. |
| ExcoBlocks.ScanAgreesWithBlocks | src/exco/exco_template/exco_block.py:36-60 | Running the scanner's step function over all lines from the initial state agrees with the marker-pairing reference definition. |
| ExcoBlocks.BlocksOkIffBalanced | src/exco/exco_template/exco_block.py:36-60 | Blocks are returned if and only if the marker lines alternate start, end, start, end… and end closed. Block j is then built from the j-th start/end pair, in order of appearance. |
| ExcoBlocks.BlocksSpanMarkerLines | src/exco/exco_template/exco_block.py:36-57 | Each block opens on a start-marker line and closes on a later end-marker line (1-based), with only non-marker lines between. Its raw text is those lines joined with their line breaks. Each block starts after the previous one ends, and every marker line opens or closes some block. |
| ExcoBlocks.TooManyBeginMeansOpenBlock | src/exco/exco_template/exco_block.py:37-42 | `TooManyBegin(l)` reports a start-marker line l that follows another start marker, while every marker before them is paired. |
| ExcoBlocks.TooManyEndMeansNoOpenBlock | src/exco/exco_template/exco_block.py:43-48 | `TooManyEnd(l)` reports an end-marker line l met when every earlier marker is already paired. |
| ExcoBlocks.ExpectEndMeansUnclosedBlock | src/exco/exco_template/exco_block.py:58-59 | `ExpectEnd` means the markers pair up except for a last start marker that is never closed. |
| ExcoBlocks.MarksAreSound | src/exco/exco_template/exco_block.py:37-55 | Every recorded marker is a line whose stripped text equals the start or end marker, with that kind. |
| ExcoBlocks.MarksAreComplete | src/exco/exco_template/exco_block.py:37-55 | Every line whose stripped text equals a marker is recorded. |
| ExcoBlocks.MarksIncrease | src/exco/exco_template/exco_block.py:36 | Markers are recorded in strictly increasing line order. |
| Text.SplitLinesConcat | src/exco/exco_template/exco_block.py:36 | Splitting with line ends kept loses nothing: joining the lines gives the comment back. |
| Text.SplitLinesAreLines | src/exco/exco_template/exco_block.py:36 | Each piece is one line: no line break before its last character except the `\r` of a closing `\r\n`, every piece but the last ends with a line break, and `\r\n` is never split across two pieces. |
| Text.StripIsInnerSlice | src/exco/exco_template/exco_block.py:37 | `strip()` is a contiguous slice of the line that neither starts nor ends with whitespace, with only whitespace cut off on either side. |
| Grid.FirstContaining | src/exco/extractor/locator/built_in/right_of_locator.py:22 | The merged range found contains the cell. None is found exactly when no merged range contains it. |
| Grid.Rightmost | src/exco/extractor/locator/built_in/right_of_locator.py:23 | Stays in the cell's row. Inside a merged range it gives that range's right edge, the rightmost cell of the range in the row; an unmerged cell is returned as it is. |
| Grid.Bottommost | src/exco/extractor/locator/built_in/search_below_of_regex_locator.py:24 | Stays in the cell's column. Inside a merged range it gives that range's bottom edge; an unmerged cell is returned as it is. |
| Grid.RenderNone | src/exco/extractor/locator/built_in/right_of_regex_locator.py:22 | `str(cell.value)` is `"None"` exactly for an empty cell or the text `None`. |
| SheetScan.FindFirst | src/exco/extractor/locator/built_in/right_of_locator.py:18-20 | Row-major scan: nothing is found exactly when no cell passes the test. Otherwise the found cell passes and no cell before it in row-major order does. |
| SheetScan.FirstMatchUnique | src/exco/extractor/locator/built_in/right_of_locator.py:18-29 | The first match in row-major order is a single cell, so the scan's result is determined. |
| RightOf.RightOfLocator.Locate | src/exco/extractor/locator/built_in/right_of_locator.py:15-31 | Bad, with message "Unable to find cell to the right of <label>", exactly when no cell equals the label. Otherwise the result is on the anchor's sheet, in the first match's row, one column right of the match, or of its merged range's right edge. |
| RightOfRegex.RightOfRegexLocator.Locate | src/exco/extractor/locator/built_in/right_of_regex_locator.py:16-30 | Bad exactly when no cell's `str()` fully matches. Otherwise the result is on the anchor's sheet, `n` columns right of the rightmost cell of the first match's merged range (or of the match itself), in the match's row. |
| RightOfRegex.WithDefaultShift | src/exco/extractor/locator/built_in/right_of_regex_locator.py:12-14 | A locator built without `n` shifts by one column. |
| SearchBelowOfRegex.SearchBelowOfRegexLocator.SearchEmptyRow | src/exco/extractor/locator/built_in/search_below_of_regex_locator.py:34-39 | Same column. Up to `max_empty_row_search` steps down, over empty cells only, it stops at the first non-empty cell, or exactly `max` rows down when all are empty. It returns the start itself when `max <= 0`. |
| SearchBelowOfRegex.StopsBelowUnique | src/exco/extractor/locator/built_in/search_below_of_regex_locator.py:34-39 | The walk's stopping rule fixes one cell. |
| SearchBelowOfRegex.SearchBelowOfRegexLocator.Locate | src/exco/extractor/locator/built_in/search_below_of_regex_locator.py:17-32 | Bad exactly when no cell fully matches. Otherwise the result is on the anchor's sheet, where the walk down from the bottom of the first match's merged range stops. |
| CellExtraction.FailLocating | src/exco/extractor/cell_extraction_task.py:50-60 | Requires a failed locating result. The result is not ok, its value is the fallback, assumption and validation results are empty, and key, locating result and metadata are kept. |
| CellExtraction.CellExtractionTaskResult.GetValue | src/exco/extractor/cell_extraction_task.py:32-38 | The parsed value when parsing succeeded, otherwise the fallback the parser was given. |
| CellExtraction.CellExtractionTaskResult.IsOk | src/exco/extractor/cell_extraction_task.py:40-48 | Ok exactly when parsing succeeded and no stored assumption or validation verdict is a failure. An ok result's value is the parsed value. |
| CellExtraction.FailAssumptions | src/exco/extractor/cell_extraction_task.py:62-76 | Requires some failed assumption. The result is not ok, its value is the fallback, all assumption results are kept and validation results are empty. |
| CellExtraction.ProcessNotLocated | src/exco/extractor/cell_extraction_task.py:102-111 | A cell that is not located gives a not-ok result whose value is the fallback, with no assumption or validation results. |
| CellExtraction.CellExtractionTask.Process | src/exco/extractor/cell_extraction_task.py:100-144 | On every path the key, metadata and locating result are the task's. An ok result was located. |
| CellExtraction.ProcessIsOk | src/exco/extractor/cell_extraction_task.py:40-144 | A run is ok if and only if the cell is located, every assumption passes, the parse succeeds and every validator passes the parsed value. |
| CellExtraction.ProcessAssumptionFails | src/exco/extractor/cell_extraction_task.py:114-123 | When one assumption fails, every assumption's verdict is reported, the parser is not consulted, validations are empty and the value is the fallback. |
| CellExtraction.ProcessParseFails | src/exco/extractor/cell_extraction_task.py:125-133 | A failed parse is reported as the parser returned it, with every assumption's verdict on the located cell, no validation results and the parser's fallback as value. |
| CellExtraction.ProcessParsed | src/exco/extractor/cell_extraction_task.py:135-144 | After a successful parse the value is the parsed one and there is one validation result per validator, each that validator's verdict. The run is ok exactly when all pass. |
| CellExtraction.SimpleProcess | src/exco/extractor/cell_extraction_task.py:146-156 | A simple task locates the anchor cell itself, runs no assumption or validator, has no metadata, and is ok exactly when its parse of the anchor cell with fallback `None` is. |
| CellExtraction.Simple | src/exco/extractor/cell_extraction_task.py:146-156 | The task has the given key and parser, locates the anchor cell itself, and has no validators, no assumptions, fallback `None` and no metadata. |
| SpecData.Items | src/exco/extractor_spec/apv_spec.py:45-48 | A list gives its items, an empty mapping or empty string gives none, and nothing else is accepted. |
| SpecData.NameParams | src/exco/extractor_spec/validator_spec.py:36 | Succeeds if and only if there is a `name` entry (else `KeyError('name')`). The parameters are every other entry outside the excluded keys, with their values. |
| SpecData.DerefKeepsShape | src/exco/extractor_spec/apv_spec.py:28-37 | Dereferencing parsed data changes strings only: kinds, list lengths and mapping keys are kept at every depth. |
| SpecData.DerefIdentity | src/exco/extractor_spec/apv_spec.py:28-37 | An identity text substitution leaves data unchanged. |
| SpecData.DerefIdempotent | src/exco/extractor_spec/apv_spec.py:28-37 | An idempotent text substitution makes dereferencing idempotent. |
| SpecData.RuleSpec.Deref | src/exco/extractor_spec/validator_spec.py:19-23 | Dereferencing a rule keeps exactly its parameter keys. |
| SpecData.RuleDerefIdentity | src/exco/extractor_spec/table_extraction_spec.py:36-40 | An identity substitution leaves a validator or end condition equal to itself. |
| SpecData.RuleDerefIdempotent | src/exco/extractor_spec/validator_spec.py:19-23 | With an idempotent text substitution, dereferencing a rule twice is dereferencing it once. |
| SpecData.KeyedLaterWins | src/exco/extractor_spec/table_extraction_spec.py:122-125 | A dict comprehension's keys are exactly the entries' keys, and each maps to its last entry's value. |
| SpecData.Twin | src/exco/extractor_spec/apv_spec.py:45-48 | The twin of a key is the same Python dict key (`1` for `True`, `False` for `0`). |
| SpecData.PyKeyedKeys | src/exco/extractor_spec/apv_spec.py:45-48 | Under Python's key equality a dict comprehension keeps no two equal keys, every entry's key equals a kept key, and every kept key is some entry's key. |
| SpecData.PyKeyedFirstKeys | src/exco/extractor_spec/apv_spec.py:45-48 | The kept keys are exactly the keys of the entries that equal no earlier key: the first key object of each group of equal keys stays. |
| SpecData.PyKeyedLastWins | src/exco/extractor_spec/apv_spec.py:45-48 | A kept key holds the value of the last entry whose key equals it. |
| ValidatorSpecs.Named | src/exco/extractor_spec/validator_spec.py:16-17 | Parameters default to none. |
| ValidatorSpecs.FromDict | src/exco/extractor_spec/validator_spec.py:25-37 | Succeeds if and only if `name` is present. Neither `key` nor `name` is ever a parameter. |
| ValidatorSpecs.FromDictToDict | src/exco/extractor_spec/validator_spec.py:25-37 | Reading a validator back from its mapping gives the same validator. |
| ValidatorSpecs.ToDictFromDict | src/exco/extractor_spec/validator_spec.py:25-37 | Reading a mapping and writing it back loses only its `key` entry. |
| ValidatorSpecs.DerefCommutesWithFromDict | src/exco/extractor_spec/validator_spec.py:19-37 | Substituting in the mapping and then reading gives the same validator as reading and then dereferencing. |
| ApvSpecs.AllowedKeys | src/exco/extractor_spec/apv_spec.py:24-26 | The allowed keys are exactly `key`, `validations`, `assumptions`, `metadata` and the parser's keys. |
| ApvSpecs.ApvSpec.Deref | src/exco/extractor_spec/apv_spec.py:28-37 | Keeps the source and the keys of validations and assumptions; the metadata keeps its shape. |
| ApvSpecs.DerefIdentity | src/exco/extractor_spec/apv_spec.py:28-37 | An identity substitution leaves the spec unchanged. |
| ApvSpecs.DerefIdempotent | src/exco/extractor_spec/apv_spec.py:28-37 | With an idempotent text substitution, dereferencing the spec twice is dereferencing it once. |
| ApvSpecs.KeyedRules | src/exco/extractor_spec/apv_spec.py:45-48 | Succeeds if and only if every element is a mapping with a hashable `key` that builds. The result is then one (key, rule) pair per element, in order. |
| ApvSpecs.KeyedRule | src/exco/extractor_spec/apv_spec.py:45-48 | A mapping element with a `key` gives (key, built rule), provided the key is hashable. The rule is built before the key is hashed, so a build failure is reported first. |
| ApvSpecs.FromDict | src/exco/extractor_spec/apv_spec.py:39-51 | Succeeds if and only if `key` is present and the parser, the `validations` and the `assumptions` all read. No `key` gives `KeyError('key')`, and a parser failure is reported next. A result holds the key, the parser built from the whole mapping, the fallback (`None` when absent), the metadata (empty mapping when absent) and the source (`UnknownSource` when none is given). |
| ApvSpecs.FromDictDefaults | src/exco/extractor_spec/apv_spec.py:45-48 | Without a `validations` or `assumptions` entry the spec has no validators or assumptions. |
| ApvSpecs.KeyedRulesLaterWins | src/exco/extractor_spec/apv_spec.py:45-48 | Keys compare as in Python (`True` is `1`, `False` is `0`). The kept keys are exactly the elements' keys that equal no earlier key, no two are equal, every element's key equals one, and each holds the rule of the last element with an equal key. |
| ApvSpecs.ValidationsLaterWins | src/exco/extractor_spec/apv_spec.py:45-46 | The spec's validations are filed under the first of each group of equal `key` values (Python's key equality), each holding `ValidatorSpec.from_dict` of the last listed mapping with an equal key. |
| ApvSpecs.AssumptionsLaterWins | src/exco/extractor_spec/apv_spec.py:47-48 | The spec's assumptions are filed under the first of each group of equal `key` values (Python's key equality), each holding `AssumptionSpec.from_dict` of the last listed mapping with an equal key. |
| ApvSpecs.TrueIsOne | src/exco/extractor_spec/apv_spec.py:45-46 | Validations keyed `1` and then `true` are one entry, filed under `1` and holding the second validator. |
| CellExtractionSpecs.AllowedKeys | src/exco/extractor_spec/cell_extraction_spec.py:24-25 | The allowed keys are exactly `locator`, `fallback`, `deref` and `APVSpec`'s allowed keys. |
| CellExtractionSpecs.ExtraKeys | src/exco/extractor_spec/cell_extraction_spec.py:51-52 | The extra keys are exactly the mapping's keys outside the allowed set. |
| CellExtractionSpecs.FromDict | src/exco/extractor_spec/cell_extraction_spec.py:47-60 | The source defaults to `UnknownSource`, and the inner `APVSpec` gets the same source. |
| CellExtractionSpecs.ExtraKeysRefused | src/exco/extractor_spec/cell_extraction_spec.py:51-54 | Any key outside the allowed set is refused with `ExcoBlockContainsExtraKey` naming all extra keys, whatever else the mapping holds or lacks. |
| CellExtractionSpecs.FromDictOk | src/exco/extractor_spec/cell_extraction_spec.py:47-60 | Reading succeeds if and only if no key is extra and the locator, the deref rule and the `APVSpec` can all be read. |
| CellExtractionSpecs.FromDictFields | src/exco/extractor_spec/cell_extraction_spec.py:27-60 | The `key`, `parser` and `fallback` accessors give the mapping's `key`, the parser built from it and its `fallback` (`None` when absent). The locator and deref rule are those built from their entries. |
| TableExtractionSpecs.DirectionFromValue | src/exco/extractor_spec/table_extraction_spec.py:23-28 | A refusal is a `ValueError` carrying the offending value. |
| TableExtractionSpecs.DirectionAccepted | src/exco/extractor_spec/table_extraction_spec.py:19-28 | Accepted if and only if the value is `None`, `"downward"` or `"rightward"`. `None` gives `DOWNWARD`. |
| TableExtractionSpecs.DirectionRoundTrip | src/exco/extractor_spec/table_extraction_spec.py:15-28 | Reading a direction's enum value gives that direction back. |
| TableExtractionSpecs.DefaultConditions | src/exco/extractor_spec/table_extraction_spec.py:42-44 | Exactly one condition, `all_blank`, with no parameters. |
| TableExtractionSpecs.EndConditionFromDict | src/exco/extractor_spec/table_extraction_spec.py:46-49 | Succeeds if and only if the value is a mapping with `name`. The parameters are all its other entries. |
| TableExtractionSpecs.EndConditions | src/exco/extractor_spec/table_extraction_spec.py:127-128 | Succeeds if and only if every listed condition reads. Then there is one condition per element, in order. |
| TableExtractionSpecs.ColumnSpecs | src/exco/extractor_spec/table_extraction_spec.py:122-125 | Succeeds if and only if every column's `APVSpec` reads. Then there is one (offset, spec) pair per column, in order. |
| TableExtractionSpecs.TableExtractionSpec.Deref | src/exco/extractor_spec/table_extraction_spec.py:69-77 | Keeps the item direction, the source, the set of column offsets and each column's source, the number of end conditions and each condition's parameter keys. |
| TableExtractionSpecs.DerefIdentity | src/exco/extractor_spec/table_extraction_spec.py:69-77 | An identity substitution leaves the table spec unchanged. |
| TableExtractionSpecs.DerefIdempotent | src/exco/extractor_spec/table_extraction_spec.py:69-77 | With an idempotent text substitution, dereferencing the table spec twice is dereferencing it once. |
| TableExtractionSpecs.FromTableAndColumnDict | src/exco/extractor_spec/table_extraction_spec.py:97-140 | Succeeds if and only if every column, the end conditions, `key`, the locator and the item direction all read. With the columns and end conditions read, a missing `key` gives `KeyError('key')`. A result has the mapping's `key`, the given source, the locator built from `locator` (`None` when absent) and the direction `from_value` gives for `item_direction` (`None` when absent). |
| TableExtractionSpecs.EndConditionsRead | src/exco/extractor_spec/table_extraction_spec.py:126-131 | Without `end_conditions` the defaults are used. With a list, exactly the listed conditions are used, in order, possibly none. |
| TableExtractionSpecs.ColumnSpecsLaterWins | src/exco/extractor_spec/table_extraction_spec.py:122-125 | The read columns are filed under exactly the columns' offsets, and a later column with the same offset wins. |
| TableExtractionSpecs.ColumnsLaterWins | src/exco/extractor_spec/table_extraction_spec.py:122-125 | The table's columns are exactly one per distinct offset, the last column with an offset winning. |
| TableExtractionSpecs.FromDict | src/exco/extractor_spec/table_extraction_spec.py:79-95 | No `columns` gives `KeyError('columns')`, and a `columns` entry that is not a mapping is refused. Otherwise it succeeds exactly when `from_table_and_column_dict` does on the columns of that mapping. A result has the given source or `UnknownSource`. |
| TableExtractionSpecs.FromDictColumns | src/exco/extractor_spec/table_extraction_spec.py:90-125 | Read from one mapping, the table has one column per key of `columns`, each the `APVSpec` read from that entry with an unknown source. |
| ExcelProcessorSpecs.NSpec | src/exco/extraction_spec/excel_processor_spec.py:13-14 | `n_spec` is the total length of all spec lists, whatever order the locations are visited in. |
| ExcelProcessorSpecs.ExcelProcessorSpec.NLocation | src/exco/extraction_spec/excel_processor_spec.py:16-17 | `n_location` is the number of distinct cell locations, zero exactly for an empty spec. |
| ExcelProcessorSpecs.TotalRemove | src/exco/extraction_spec/excel_processor_spec.py:13-14 | The total does not depend on which location is counted first. |
| ExcelProcessorSpecs.TotalAtLeastLocations | src/exco/extraction_spec/excel_processor_spec.py:13-17 | When every location holds a spec, `n_spec >= n_location`. |
| ExcelProcessorSpecs.IsKeysUnique | src/exco/extraction_spec/excel_processor_spec.py:19-20 | True if and only if no two specs, in one location or in two, share a key. |
| ExcelProcessorSpecs.UniqueKeysCount | src/exco/extraction_spec/excel_processor_spec.py:13-20 | When keys are unique, the number of distinct keys equals `n_spec`. |
| ExcelProcessorSpecs.EmptySpec | src/exco/extraction_spec/excel_processor_spec.py:13-20 | An empty spec has no location, no spec, and unique keys. |

## Left out

- YAML loading in `ExcoBlock.to_extractor_task_spec` and the `describe` one-liner: loading is a foreign library.
- `SpecData.Data` covers only part of what YAML yields: `None`, strings, integers, booleans, lists and mappings with string keys. Floats, dates and mappings with non-string keys are not expressible.
  - Table columns keyed by non-string offsets (`table_extraction_spec.py:92`) are therefore modelled only for string offsets.
  - Likewise a top-level non-string key, which `extra_keys` would refuse, cannot occur.
- The markers are parameters of `ExcoBlocks.FromString`. The default `setting.start_marker` does not exist in `src/exco/setting.py`, which defines only the cell, table and column start markers.
- Logging (`logging.debug`) and `CellExtractionTask.__str__` / `long_string`: they have no effect on results.
- openpyxl is not part of this model. A sheet is a finite grid of `Text`, `Number` and `Boolean` values with merged ranges. Float, date and formula values are left out.
  - `iter_rows` is rows `1..maxRow` by columns `1..maxCol`.
  - The unseen `util` helpers `is_merged_cell`, `get_rightmost_coordinate`, `get_bottommost_coordinate`, `shift_coord` and `tuple_to_coordinate` are integer-coordinate functions with the meaning their names give.
  - The first merged range containing a cell is its region.
- RightOf.RightOfLocator.Locate: models the intended "same row, one column right" of the match or of its merged range's right edge. `right_of_locator.py:26` indexes `coord[0], coord[1]` in both cases. In the unmerged case `coord` is a text coordinate such as `"A1"`. In the merged case it is what `util.get_rightmost_coordinate` returns, which the sibling locators use as a cell (`.coordinate`, `right_of_regex_locator.py:26`). What the indexing does in either case depends on `util` helpers that are not part of this model.
- Locators take a sheet name that exists in the workbook. Looking up a missing sheet raises `KeyError` in the source, outside any result.
- Regular expressions: compilation and `fullmatch` are an opaque predicate on the cell's `str()`. An invalid pattern (`re.error`) is not modelled.
- `LocatorSpec`, `ParserSpec`, `DerefSpec` and `AssumptionSpec` are not part of this model.
  - Their `from_dict` and `ParserSpec.allowed_keys` are parameters (`SpecData.Builders`).
  - Their `deref` is taken to have the `{name, params}` shape of `ValidatorSpec`.
  - `name_params` and `extra_keys` follow the meaning their names and uses give.
- `Dereferator` internals: only `deref_text`'s string substitution is a parameter. Any other value passes through unchanged.
- TableExtractionSpecs.FromDict: Python dicts iterate in insertion order, which a Dafny map does not record. Columns are read in some order of the offsets, so the function is ghost. Which invalid column is reported first when several fail is not determined.
- The `k_metadata` constant used by `apv_spec.py` is absent from `setting.py`. The model uses the key `metadata`.
- Keys of validations and assumptions are any hashable value (`Data` other than lists and mappings), compared as Python compares dict keys: `True` is the key `1` and `False` the key `0`. A list or mapping used as a key is the source's `TypeError`.
- The locator, parser, assumptions and validators of a `CellExtractionTask` are functions; whatever they raise is not modelled. `AtCommentCellLocator` is modelled as returning the anchor itself.
- ExcelProcessorSpecs.IsKeysUnique: `util.is_unique` is not part of this model. It is taken to mean that no value occurs twice.
- The table extraction engine and its 10000-row guard are not part of this model; only the table specification is.
- SearchBelowOfRegex.SearchBelowOfRegexLocator.SearchEmptyRow: the sheet is read-only in the model. On an ordinary openpyxl worksheet, `sheet[cell_cor]` (`search_below_of_regex_locator.py:37`) creates each cell it visits. That enlarges `max_row`, so later scans of the same sheet also visit those new empty cells. Recent openpyxl versions also raise `ValueError` past row 1,048,576. Neither effect is modelled.
- Grid.Sheet: the model does not require non-empty cells to lie within `1..maxRow` × `1..maxCol`, nor merged cells other than a range's top-left to be empty, as openpyxl guarantees. The locator contracts speak of the scanned area `1..maxRow` × `1..maxCol` only.
