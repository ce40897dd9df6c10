# Label matching for flow CSV files, in Dafny

This project models the label-matching core of a set of scripts. The
scripts label network-flow CSV files, such as those exported from PCAP
captures, with the `attack`, `category` and `subcategory` of a reference
("label") file.

The repository holds several near-duplicate variants of that logic, each
with its own policy. Each variant is a module of its own here:

- **`CsvProcessor`** (`Labeler/processor/csv_processor.py`):
  - chooses a label from the data file's name, with a hard-coded exception
    table tried first;
  - builds a dictionary from (source ip, destination ip) to a label record,
    reading the label file in chunks;
  - gathers the non-empty processed chunks into one frame.
- **`SingleLabeler`** (`single_labeler.py`):
  - chooses a label by a case-sensitive substring test;
  - stamps `"Unclear"` defaults on every row;
  - strips quotes from the address columns of both tables;
  - overwrites each data row with the labels of the first reference row
    whose `saddr`/`daddr` equal its `src_ip`/`dst_ip`.
- **`Labeler`** (`labeler.py`):
  - picks the reference table from a list of label entries;
  - labels rows the same way, except that it skips rows whose addresses
    are falsy and does no quote stripping;
  - derives the name of each output file.
- **`Matcher`** (`LabelerV2/modules/matcher.py`):
  - `match_columns` checks column presence and marks the mapped columns;
  - it copies reference columns by row position;
  - `apply_labels` labels rows `malicious`/`benign`.
- **`LabelDeterminer`** (`LabelerV2/modules/label_determiner.py`): chooses
  the label file from the configuration's `labeling_files` table.
- **`ConfigLoader`** (`LabelerV2/modules/config_loader.py`): validates the
  required keys of a dataset entry and selects that entry.
- **`Verificator`** (`verificator.py`):
  - counts the labels of every column over a folder of CSV files;
  - lists the counts from most to least frequent, with a stable sort.

Four support modules hold what the others share:

- **`Common`**: `Option`, `Result` and the Python exceptions that are
  raised.
- **`Text`**: Python string and path operations:
  - `in` on strings, `lower`, `strip`;
  - `basename`, `splitext`, `join`;
  - `str` of an integer.
- **`Frames`**: cells, rows and frames in the way pandas handles them:
  - `NaN` is truthy and never equal to anything;
  - `True == 1`;
  - `astype(str)`;
  - column assignment aligned by position;
  - `concat`.

  The `Table` class is a DataFrame that the code changes in place.
- **`JsonValues`**: parsed JSON with Python's `in`, `[]` and `str`.

Loops in the source are methods with loop invariants, and each is proved
equal to a specification function. Those functions carry the properties
as contracts and lemmas. A frame that the source changes in place is a
`Table` whose methods `modify` it.

## Model

| member | source | states |
|---|---|---|
| CsvProcessor.CheckLabelExceptions | Labeler/processor/csv_processor.py:81-92 | Some iff "data_theft" or "keylog" occurs in the name; "data_theft" wins and gives Data_exfiltration, else "keylog" gives Keylogging |
| CsvProcessor.CheckLabelExceptionsIsLoop | Labeler/processor/csv_processor.py:83-92 | the closed form equals the loop over the two-entry table with `.lower()` applied to each fragment, in table order |
| CsvProcessor.FindMatchingLabels | Labeler/processor/csv_processor.py:94-96 | exactly the labels whose lower-cased form occurs in the name; empty iff none matches; the head is the first match in list order |
| CsvProcessor.FindMatchingLabelsKeepsOrder | Labeler/processor/csv_processor.py:96 | the filter keeps list order: the matches of a + b are the matches of a followed by those of b |
| CsvProcessor.LabelFor | Labeler/processor/csv_processor.py:64-79 | an exception hit is returned without consulting the list; otherwise None iff no label matches, else the first match |
| CsvProcessor.Processor.DetermineLabel | Labeler/processor/csv_processor.py:58-79 | None without a data path; otherwise LabelFor of the lower-cased file name |
| CsvProcessor.Processor.constructor | Labeler/processor/csv_processor.py:9-22 | a missing labels_dir becomes /data/labels/; label_path is labels_dir joined with Keylogging.csv |
| CsvProcessor.CleanAddress | Labeler/processor/csv_processor.py:147-148 | the string form with `"` then `'` stripped has no `'` at either end |
| CsvProcessor.BuildLabelKey | Labeler/processor/csv_processor.py:145-152 | KeyError iff a key column is absent; Some((src, dst)) iff both cells are non-NaN and non-empty after stripping quotes, with the stripped strings as the key |
| CsvProcessor.RecordOf | Labeler/processor/csv_processor.py:139-142 | succeeds iff every source column is in the row; its keys are exactly the output names |
| CsvProcessor.RecordOfLastWins | Labeler/processor/csv_processor.py:139-142 | each output name holds the row's cell of the source column in the last pair that names it |
| CsvProcessor.Absorb | Labeler/processor/csv_processor.py:137-142 | a row without a key leaves the dictionary as it was; a keyed row (over)writes its key with its record; a KeyError is propagated |
| CsvProcessor.AbsorbUniform | Labeler/processor/csv_processor.py:133-142 | absorbing a row keeps every value holding exactly the output names |
| CsvProcessor.AbsorbHit | Labeler/processor/csv_processor.py:138-142 | a row carrying key k sets k to that row's record |
| CsvProcessor.AbsorbMiss | Labeler/processor/csv_processor.py:138-142 | a row not carrying k leaves k's presence and value alone |
| CsvProcessor.IndexRows | Labeler/processor/csv_processor.py:131-143 | on success every dictionary value has exactly the output names of label_columns as keys |
| CsvProcessor.IndexRowsFailureSticks | Labeler/processor/csv_processor.py:135-143 | once a KeyError is raised, later rows change nothing |
| CsvProcessor.IndexRowsKeys | Labeler/processor/csv_processor.py:135-143 | a key is in the dictionary iff some row carries it; rows without a key contribute nothing |
| CsvProcessor.IndexRowsKeysSound | Labeler/processor/csv_processor.py:135-143 | a key in the dictionary names a row that carries it |
| CsvProcessor.IndexRowsKeysComplete | Labeler/processor/csv_processor.py:135-143 | a row that carries a key puts that key in the dictionary |
| CsvProcessor.IndexRowsLastWriteWins | Labeler/processor/csv_processor.py:135-143 | each key maps to the record of the last row carrying it |
| CsvProcessor.BuildLabelDictionary | Labeler/processor/csv_processor.py:129-143 | the loop over chunks equals IndexRows of all rows in order, so the result does not depend on how the rows are cut into chunks |
| CsvProcessor.IndexChunk | Labeler/processor/csv_processor.py:136-142 | the inner loop over one chunk's rows extends the dictionary of the rows before it exactly as IndexRows of the rows so far; a KeyError stops it |
| CsvProcessor.FailureSticksToEnd | Labeler/processor/csv_processor.py:135-143 | a KeyError at a row of a chunk is the outcome of the whole dictionary build |
| CsvProcessor.NonEmptyChunks | Labeler/processor/csv_processor.py:194-197 | keeps exactly the non-empty chunks |
| CsvProcessor.NonEmptyChunksAppend | Labeler/processor/csv_processor.py:193-197 | the kept chunks of two runs put end to end are those of the first run followed by those of the second, so the input order and the number of copies are kept |
| CsvProcessor.NonEmptyChunksOne | Labeler/processor/csv_processor.py:196-197 | a single chunk is kept exactly when it is not empty |
| CsvProcessor.Processor.ProcessFile | Labeler/processor/csv_processor.py:185-208 | None iff there is no data path, the file is missing, creating or reading the chunk iterator or processing a chunk raised (the `except Exception` path), or no chunk is non-empty; otherwise the concatenation of the non-empty chunks in input order |
| ConfigLoader.CheckKey | LabelerV2/modules/config_loader.py:61-67 | for an object, passes iff the key is present and, for a list key or column_mapping, bound to a list or a dict; on a non-object those keys fail |
| ConfigLoader.CheckKeyMessages | LabelerV2/modules/config_loader.py:61-67 | the failing check raises "Falta la clave requerida: <key>", "La clave '<key>' debe ser una lista." or "... debe ser un diccionario." |
| ConfigLoader.ValidateDatasetConfig | LabelerV2/modules/config_loader.py:48-67 | passes iff all five required keys are present, the three list keys hold lists and column_mapping holds a dict; labeling_files is checked for presence only |
| ConfigLoader.CheckKeysSucceeds | LabelerV2/modules/config_loader.py:60-67 | the loop passes iff every key passes its own check |
| ConfigLoader.CheckKeysFirstFailure | LabelerV2/modules/config_loader.py:60-67 | the loop raises the error of the first key that fails, so later keys are never examined |
| ConfigLoader.ValidateReportsFirstMissingKey | LabelerV2/modules/config_loader.py:58-62 | when earlier keys pass, the first absent key raises "Falta la clave requerida: <key>" |
| ConfigLoader.ExtraKeysIgnored | LabelerV2/modules/config_loader.py:58-67 | members with names that are not required keys do not change the verdict |
| ConfigLoader.LoadConfig | LabelerV2/modules/config_loader.py:8-44 | a missing file raises FileNotFoundError; a read error propagates; a missing `datasets` raises its ValueError first; with a `datasets` dict, an absent dataset type raises the "No se encontró configuración para el dataset" ValueError; success iff the entry exists and validates, and it is returned unmodified |
| LabelDeterminer.TargetName | LabelerV2/modules/label_determiner.py:29-30 | the base name without its extension, lower-cased: no '/' and no upper-case letter |
| LabelDeterminer.LabelingFiles | LabelerV2/modules/label_determiner.py:42 | Some iff the configuration is a dict whose labeling_files member is a dict, giving its members |
| LabelDeterminer.FirstLabelingFile | LabelerV2/modules/label_determiner.py:42-46 | None iff no key occurs in the name; otherwise the value of the first such key in table order |
| LabelDeterminer.DetermineLabelingFile | LabelerV2/modules/label_determiner.py:8-57 | missing directory gives FileNotFoundError before any matching; no matching key gives ValueError (iff); any other failure gives RuntimeError; success iff the directory can be listed, `labeling_files` is a dict and some key occurs in the target name, and then it is labels_directory/<value>.csv for the first matching key |
| LabelDeterminer.UpperCaseKeyNeverMatches | LabelerV2/modules/label_determiner.py:30-43 | a key holding an upper-case letter never matches the lower-cased name |
| LabelDeterminer.DirectoryIgnored | LabelerV2/modules/label_determiner.py:29-30 | the directories in front of the file name do not change the target name |
| SingleLabeler.DetermineLabel | single_labeler.py:39-58 | None iff no label occurs (case-sensitively) in the name; otherwise the first label in list order that does |
| SingleLabeler.CleanCell | single_labeler.py:115-119 | the string form of the cell (NaN is "nan") with surrounding `"` stripped |
| SingleLabeler.CleanColumn | single_labeler.py:118-119 | one cleaned cell per row |
| SingleLabeler.CleanIn | single_labeler.py:115-119 | None iff the column is missing (KeyError); otherwise the column replaced by its cleaned cells |
| SingleLabeler.WithDefaults | single_labeler.py:110-112 | every row gets "Unclear" in attack, category and subcategory; row count kept; those columns added |
| SingleLabeler.FirstMatchFrom | single_labeler.py:131-136 | the index of the first label row, from j on, whose saddr and daddr equal the addresses; None iff there is none |
| SingleLabeler.LabelAll | single_labeler.py:122-136 | fails iff some row fails; otherwise one labelled row per row, in order |
| SingleLabeler.ProcessFile | single_labeler.py:87-142 | a missing or unreadable file gives None and leaves the label table alone; otherwise the label table's saddr/daddr are cleaned in place and the result is the processed data when that cleaning succeeded |
| SingleLabeler.FindMatch | single_labeler.py:131-136 | the inner loop with break stops at the first matching label row, or runs to the end iff there is none |
| SingleLabeler.LabelRows | single_labeler.py:122-136 | the outer loop over the data rows equals LabelAll |
| SingleLabeler.PreparedShape | single_labeler.py:106-119 | the prepared frame keeps the row count and gains exactly the three label columns |
| SingleLabeler.CleanInRow | single_labeler.py:118-119 | cleaning one column changes only that column of each row |
| SingleLabeler.PreparedSome | single_labeler.py:110-119 | preparing succeeds iff the data has src_ip and dst_ip (KeyError otherwise) |
| SingleLabeler.PreparedKeeps | single_labeler.py:118-119 | cleaning the addresses leaves every other cell as the defaults left it |
| SingleLabeler.PreparedLabels | single_labeler.py:110-112 | every prepared row holds "Unclear" in the three label columns |
| SingleLabeler.PreparedAddresses | single_labeler.py:118-119 | every prepared row holds the cleaned src_ip and dst_ip |
| SingleLabeler.PreparedOthers | single_labeler.py:106-119 | every other cell of a prepared row is the cell read |
| SingleLabeler.LabelOneSucceeds | single_labeler.py:131-136 | labelling a row cannot fail when every label row has the three labels |
| SingleLabeler.LabelOneKeeps | single_labeler.py:133-135 | labelling a row writes only the three label columns |
| SingleLabeler.LabelOneUnmatched | single_labeler.py:131-136 | a row no label row matches is left as it is |
| SingleLabeler.LabelOneFirstMatch | single_labeler.py:131-136 | a matched row takes all three labels from the first matching label row |
| SingleLabeler.ProcessedRow | single_labeler.py:122-139 | output row i is the prepared row i labelled against the label table |
| SingleLabeler.ProcessedShape | single_labeler.py:106-139 | the output keeps the data's row count and order and adds exactly the three label columns |
| SingleLabeler.ProcessedSucceeds | single_labeler.py:104-142 | when every label row has the three labels, processing succeeds iff the data has src_ip and dst_ip |
| SingleLabeler.ProcessedUnmatched | single_labeler.py:110-136 | an unmatched row holds "Unclear" in all three label columns |
| SingleLabeler.ProcessedMatched | single_labeler.py:131-136 | a matched row holds the labels of the first matching label row, later duplicates ignored |
| SingleLabeler.ProcessedAddresses | single_labeler.py:118-119 | the output holds the quote-stripped addresses |
| SingleLabeler.ProcessedOthers | single_labeler.py:106-139 | no cell other than the addresses and the three labels changes |
| SingleLabeler.LabelsAfterRow | single_labeler.py:115-116 | the label table's saddr/daddr are replaced by their cleaned form and nothing else changes |
| SingleLabeler.CleanedMatch | single_labeler.py:115-132 | addresses match iff their quote-stripped string forms are equal |
| SingleLabeler.QuotesIgnored | single_labeler.py:115-119 | an address wrapped in `"` cleans to the same cell as the bare address |
| SingleLabeler.MissingAddressesMatch | single_labeler.py:118-128 | NaN is never equal to NaN, but after astype(str) a missing address is the string "nan", so a missing address matches a missing saddr and the NaN guard never skips |
| Labeler.LabelNames | labeler.py:67 | the names of the label entries, in matrix order |
| Labeler.ChooseLabel | labeler.py:66-74 | None iff no entry name occurs (case-sensitively) in the file name; otherwise the first such name in matrix order |
| Labeler.TableOf | labeler.py:75 | the table of the first entry with that name; None iff no entry has it |
| Labeler.ChosenTable | labeler.py:66-75 | Some iff a label is chosen; then the table of the first entry named by the chosen label |
| Labeler.RowMatch | labeler.py:89 | true iff saddr and daddr both equal the addresses (Python ==); KeyError iff saddr is missing, or saddr equals and daddr is missing (`and` short-circuits) |
| Labeler.ScanFrom | labeler.py:88-93 | the first matching label row from j on, with no match before it; no match iff every row is a non-match |
| Labeler.LabelRows | labeler.py:82-93 | fails iff some row fails; otherwise one labelled row per row, in order |
| Labeler.Scan | labeler.py:88-93 | the inner loop with break equals ScanFrom from 0 |
| Labeler.ProcessCsvFile | labeler.py:48-98 | equals ProcessedCsv: a missing file, no chosen label, a read error or a KeyError give None; otherwise the defaulted frame with its rows labelled |
| Labeler.LabelInPlace | labeler.py:82-93 | the outer loop, which overwrites rows in place, equals LabelRows |
| Labeler.LabelRowSkips | labeler.py:83-86 | a row whose src_ip or dst_ip is falsy (missing, empty, 0, False) keeps its defaults |
| Labeler.LabelRowUnmatched | labeler.py:88-93 | a row no label row matches is unchanged |
| Labeler.LabelRowFirstMatch | labeler.py:88-93 | a matched row takes the three labels of the first matching label row |
| Labeler.LabelRowKeeps | labeler.py:90-92 | labelling writes only the three label columns |
| Labeler.DefaultsKeep | labeler.py:78-80 | adding the defaults changes no other cell |
| Labeler.ProcessedCsvRow | labeler.py:82-94 | output row i is defaulted row i labelled against the chosen table |
| Labeler.ProcessedCsvShape | labeler.py:77-94 | the output keeps the row count and order and adds exactly the three label columns |
| Labeler.ProcessedCsvSucceeds | labeler.py:65-98 | with a chosen table whose rows have saddr, daddr and the three labels, processing an existing, readable file succeeds |
| Labeler.NoLookupFails | labeler.py:88-89 | the scan raises no KeyError when every label row has saddr and daddr |
| Labeler.ProcessedCsvSkipsFalsy | labeler.py:78-86 | a row with a falsy address comes out as the input row with "Unclear" in the three label columns |
| Labeler.ProcessedCsvUnmatched | labeler.py:78-93 | an unmatched row comes out as the input row with "Unclear" in the three label columns |
| Labeler.ProcessedCsvMatched | labeler.py:88-93 | a matched row holds the labels of the first matching row of the chosen table |
| Labeler.ProcessedCsvOthers | labeler.py:77-94 | no cell other than the three labels changes, addresses included |
| Labeler.MissingAddressNeverMatches | labeler.py:83-89 | NaN is truthy, so the guard lets it through, but it never equals a reference address |
| Labeler.QuotedAddressDiffers | labeler.py:89 | without stripping, `"a"` does not match a reference address a |
| Labeler.OutputName | labeler.py:123 | "processed_" followed by the file name |
| Labeler.CsvFiles | labeler.py:117 | exactly the listed names ending in ".csv" |
| Labeler.Outputs | labeler.py:118-127 | at most one output per file |
| Labeler.ProcessFiles | labeler.py:101-127 | a missing directory raises FileNotFoundError with its message; otherwise the outputs of the .csv files |
| Labeler.OutputsSound | labeler.py:118-123 | every output is named processed_<f> for a listed file f and holds f's processed frame |
| Labeler.OutputsComplete | labeler.py:118-123 | every listed file that processes successfully yields its output |
| Matcher.AnyEq | LabelerV2/modules/matcher.py:31 | true iff some reference cell is equal (Python ==) to the value |
| Matcher.Marks | LabelerV2/modules/matcher.py:30-33 | one mark per target row |
| Matcher.MatchColumns | LabelerV2/modules/matcher.py:3-41 | the result is MatchOutcome of the old table; on success the table is that frame, on failure it is unchanged |
| Matcher.TargetCheckedFirst | LabelerV2/modules/matcher.py:20-21 | a target lacking columns_to_label raises the target ValueError, whatever the reference; two empty tables give this error |
| Matcher.ReferenceCheckedSecond | LabelerV2/modules/matcher.py:22-23 | when the target has its columns, a missing reference column raises the reference ValueError |
| Matcher.EmptyConfigUnchanged | LabelerV2/modules/matcher.py:16-41 | absent keys default to empty, so an empty config returns the target unchanged |
| Matcher.MapStepSkips | LabelerV2/modules/matcher.py:28 | a mapping not present on both sides changes nothing |
| Matcher.MapStepMarks | LabelerV2/modules/matcher.py:27-33 | each target cell becomes True iff its value equals some cell of the reference column; nothing else changes |
| Matcher.CopyStepAligns | LabelerV2/modules/matcher.py:37-39 | target row i gets reference row i, rows past the reference get NaN, nothing else changes |
| Matcher.CopyStepSkips | LabelerV2/modules/matcher.py:38 | a copy column the reference lacks is skipped |
| Matcher.MapAllKeepsShape | LabelerV2/modules/matcher.py:27-33 | the mapping loop keeps the rows and the columns of a non-empty target |
| Matcher.CopyAllKeepsRows | LabelerV2/modules/matcher.py:36-39 | the copy loop keeps the rows of a non-empty target and adds exactly the copied columns |
| Matcher.MatchKeepsRowCount | LabelerV2/modules/matcher.py:27-41 | match_columns keeps the number of rows of a non-empty target |
| Matcher.EmptyTableTakesCopiedRows | LabelerV2/modules/matcher.py:36-39 | a zero-row target that has a column copied into it takes the reference's row count |
| Matcher.Translate | LabelerV2/modules/matcher.py:68-73 | "TCP" becomes 43419, "UDP" becomes 17, anything else is unchanged |
| Matcher.LabelFor | LabelerV2/modules/matcher.py:79 | "malicious" iff the cell equals the target, else "benign" |
| Matcher.CriterionLabels | LabelerV2/modules/matcher.py:78-81 | one label per row |
| Matcher.ColumnIn | LabelerV2/modules/matcher.py:62 | a string name tests the columns; a list or dict name raises TypeError |
| Matcher.ApplyLabels | LabelerV2/modules/matcher.py:44-84 | the result is ApplyOutcome of the old table; on success the table is that frame, on failure it is unchanged |
| Matcher.MissingCriterionColumn | LabelerV2/modules/matcher.py:62-63 | a missing criteria column raises KeyError with its message |
| Matcher.ApplyLabelsRow | LabelerV2/modules/matcher.py:68-81 | with the column present, row i's label is "malicious" iff its cell equals the translated criterion, else "benign"; other cells unchanged |
| Matcher.TcpCriterion | LabelerV2/modules/matcher.py:68-79 | with criterion "TCP", 43419 is malicious while 17 and the string "TCP" are benign |
| Verificator.Add | verificator.py:43 | `+=` adds n to the label's count only, adds n to the total, adds the label to the keys and keeps them unique |
| Verificator.Tally | verificator.py:41 | counts each label exactly as often as it occurs, NaN included; total = number of cells; unique keys |
| Verificator.SortByCount | verificator.py:59 | a permutation (multiset) of the items in non-increasing count order |
| Verificator.SortCounts | verificator.py:59 | sorting counts every label as before, with the same total |
| Verificator.SortLabels | verificator.py:59 | sorting keeps the same labels, each still once |
| Verificator.SortStable | verificator.py:59 | stability: for every count, the items with that count keep their order |
| Verificator.ValueCounts | verificator.py:41 | each label's count is its number of occurrences, NaN included; counts add up to the row count; sorted by count; unique keys |
| Verificator.Merge | verificator.py:42-43 | merging keeps the keys unique |
| Verificator.MergeCounts | verificator.py:42-43 | after merging, each label's count is its old count plus the file's count, and the totals add |
| Verificator.EmptyCounts | verificator.py:12-16 | three empty counters, attack, category and subcategory, in that order |
| Verificator.ColumnSteps | verificator.py:39-43 | the column loop merges each present label column's counts into its own counter and leaves the others |
| Verificator.AnalyzeLabels | verificator.py:7-47 | always three counters |
| Verificator.FileStepCounts | verificator.py:32-45 | one round of the file loop adds the file's occurrences of a label to its column's count and the file's rows to the total, keeping the keys unique; a file whose read raised, or that lacks one of the three columns, adds nothing |
| Verificator.AnalyzeCounts | verificator.py:31-45 | the counters stay the three label columns; a label's count is the sum of its occurrences over the files read; the counts add up to their row count; keys unique |
| Verificator.FailedReadIgnored | verificator.py:31-45 | a file whose read raises, wherever it comes, changes nothing and does not stop the loop; this includes a file lacking any of the three columns, which the `usecols` read rejects |
| Verificator.MissingColumnIgnored | verificator.py:36-43 | a file lacking one of the three label columns adds nothing to any counter, not even for the columns it has |
| Verificator.NothingToCount | verificator.py:18-27 | an invalid folder or one without CSV files gives three empty counters |
| Verificator.Accumulate | verificator.py:42-43 | the innermost loop equals Merge |
| Verificator.AnalyzeLabelsInCsvs | verificator.py:7-47 | the loops over files and columns equal AnalyzeLabels |
| Verificator.CounterLinesOf | verificator.py:59-60 | the inner printing loop gives one line per item, in order |
| Verificator.DisplayLabelCounts | verificator.py:50-60 | each column's heading followed by its labels sorted by SortByCount |
| Frames.ToStr | single_labeler.py:118 | astype(str): a string unchanged, NaN "nan", integers in decimal, booleans "True"/"False" |
| Frames.Get | labeler.py:83-84 | row.get: Some iff the row has the column, with its cell |
| Frames.Column | LabelerV2/modules/matcher.py:31 | one cell per row, the row's own cell where present |
| Frames.WithColumn | LabelerV2/modules/matcher.py:39 | column assignment by position: the new cells, NaN past the end of the values, other cells unchanged; a zero-row frame takes the values' length |
| Frames.WithConstant | single_labeler.py:110 | assigning a scalar sets that column in every row and keeps the row count |
| Frames.Concat | Labeler/processor/csv_processor.py:203 | concat with ignore_index: the rows of all frames in order, padded with NaN to the union of the columns |
| Frames.Table.Assign | LabelerV2/modules/matcher.py:30 | the table becomes WithColumn of its old contents |
| Text.Strip | single_labeler.py:115 | str.strip(c) |
| Text.ToLower | Labeler/processor/csv_processor.py:64 | lower-cases letter by letter; no upper-case letter is left |
| Text.BaseName | LabelerV2/modules/label_determiner.py:29 | the part after the last '/' |
| Text.StripExtension | LabelerV2/modules/label_determiner.py:30 | the name without its last extension |
| Text.PathJoin | LabelerV2/modules/label_determiner.py:44 | os.path.join of a directory and a name |
| Text.Filter | single_labeler.py:51 | a list comprehension with a condition: exactly the elements that satisfy it |
| JsonValues.PyIn | LabelerV2/modules/config_loader.py:61 | `key in x` for a dict, a list or a string; TypeError otherwise |
| JsonValues.PyGetItem | LabelerV2/modules/config_loader.py:42 | `x[key]` on a dict, with KeyError for a missing key and TypeError for anything that is not a dict |

## Left out

- Reading and writing files is not modelled: CSV and JSON parsing, `to_csv`, chunk readers, dtype inference and encodings. Each table is an already-parsed `Frame`, and each read outcome is an input (`None` or a `Result` failure when the read raises).
- Checks of the file system are not modelled: existence checks, `glob`, `listdir`, `os.walk` and `makedirs`. Their results are boolean or list parameters.
- Some paths are left in the form given: `abspath` is not modelled, and `process_files` passes the base name on.
- The I/O wrappers and the orchestration are not modelled: `_get_label_list`, `_load_config`, `_load_label_file`, `_create_chunk_iterator`, `_create_data_chunk_iterator`, `process` and `_save_output` in csv_processor.py; `load_label_file` and `save_csv` in single_labeler.py; `get_available_labels` in labeler.py. The same goes for tagger.py, file_handler.py, main.py and the argparse entry points.
- `_process_chunk` is called by `_process_file` but is not defined in the repository. `CsvProcessor.Processor.ProcessFile` therefore takes the processed chunks as input, or None when creating the chunk iterator, reading a chunk or processing one raised, and models the collection loop only.
- Logging and `print` are not modelled. `DisplayLabelCounts` returns the printed lines instead of printing them.
- Cells are strings, integers, booleans and NaN. Floats and pandas' number formatting are not modelled, and integers are unbounded.
- `lower()` is modelled for ASCII letters only.
- The `repr` of lists in error messages does not model escapes.
- JSON objects are taken to have distinct member names.
- Matcher.MatchColumns: the reference frame is a value, so the case where `df_reference` is the same object as `df_to_label` is not modelled. The configuration values are taken to have the kinds the code expects: lists of names and a dict of names.
- Matcher.MatchKeepsRowCount: proved only for targets with at least one row. A zero-row target that receives a copied column takes the reference's rows, as `Matcher.EmptyTableTakesCopiedRows` shows, so "never changes the number of rows" does not hold for it.
- Matcher.ApplyLabels: the behaviour of `DataFrame.apply` on a zero-row frame is not modelled. A `label_column` name that is not a string is modelled as a TypeError.
- LabelDeterminer.DetermineLabelingFile: a permission error and a path that is a file are both treated as a directory that cannot be listed. The directory listing is computed but never used by the code, so it is not modelled.
- SingleLabeler.ProcessFile: the label table lacking `saddr` or `daddr` raises before the loop, which `LabelsReady` captures. Inside the loop, a label row without those cells counts as no match; in a table that has the columns this cannot occur.
- ConfigLoader.LoadConfig: `load_json` already turns every read or parse error into ValueError, so `load_config`'s own `JSONDecodeError` branch is unreachable. The model follows the code and passes the read outcome through.
- The configuration tests treat dataset entries without `labeling_files` as valid (LabelerV2/tests/test_config_loader.py:13-21 and 61-66). The code rejects them with "Falta la clave requerida: labeling_files"; that is `ConfigLoader.ValidateReportsFirstMissingKey` with the last key.
- Verificator.ValueCounts: within one file, pandas' order among labels with equal counts is taken to be the order of first appearance. This only affects the insertion order of new keys, and so the order of ties when displayed.
- Verificator.AnalyzeCounts: label keys are compared structurally.
  - NaN labels from different files count as one key, where Python merges them only when the NaN objects are identical.
  - A label `1` and a label `True` are two keys, where a Python dict would merge them.
