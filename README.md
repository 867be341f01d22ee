# mergeEasy in Dafny

mergeEasy is a small web tool for merging tabular files. A user uploads CSV, JSON or Excel files. The Express server (`app.js`) stores them and runs a first-pass merge worker (`merge.py`). That worker concatenates the tables, drops repeated rows and reports statistics. The user then edits a mapping from old to new column names. The server runs the mapping worker (`mapping.py`), which renames every table's columns, pads them all to the union of names and concatenates them. Finally the merged file is downloaded and the uploads are deleted.

This project models that core:

- `server.dfy` (module `Server`) holds the server's two module-level variables, `uploadedFiles` and `columnMatches`, as the fields of class `Session`. It has one method per endpoint:
  - `/api/merge`, `/api/update-columns`, `/columns`, `/api/submit-columns` and `/download`;
  - the download method is a loop of deletions over a set of existing paths.

  The rules around the endpoints are pure functions: JavaScript truthiness, `typeof`, object spread, the classification of a worker's exit status and output, and the order of the submit guards. A worker's exit status and parsed output are inputs to these methods.
- `paths.dfy` (module `Paths`) holds Node's `path.extname`, Python's `os.path.splitext`, ASCII lower-casing, the upload filter and the stored-path naming.
- `ingest.dfy` (module `Ingest`) holds the choice of reader by extension and the normalisation of a JSON document's shape. It also holds `pd.DataFrame(records)` for dict, list and scalar records.
- `tables.dfy` (module `Tables`) holds tables as ordered column labels plus rows of cells, with an explicit missing marker. It defines reindexing, the first-seen column union, concatenation and `drop_duplicates`, with the scan for a cell it cannot hash.
- `first_pass.dfy` (module `FirstPass`) holds `merge.py`:
  - `read_file`;
  - `merge_files` as specification functions plus methods: the argument's iteration, `os.path.abspath`, the existence loop and the read loop;
  - the statistics;
  - the entry point, with its exit status and printed report.
- `mapping.dfy` (module `Mapping`) holds `mapping.py`:
  - `read_file` with its error wrapping;
  - the in-place renaming loop over an array of frames;
  - the column set, the padding and the concatenation;
  - the two-file guard and the error-to-report convention;
  - `main`.
- `base.dfy` and `json.dfy` hold shared helpers: options and results, first occurrences, flattening, decimal digits, and JSON values with ordered property lists.

No component proposes a column mapping: `merge.py` never prints `column_matches`. After a successful upload, `columnMatches` therefore becomes `undefined` and `/columns` refuses to render.

Uploads are deleted only after a successful download. A failed merge, a failed mapping or a failed send leaves them on disk.

## Model

| member | source | states |
|---|---|---|
| Paths.ExtName | app.js:23 | A non-empty extension starts with a dot and holds no further dot and no slash. |
| Paths.AcceptsCharacterization | app.js:21-28 | The upload filter accepts a name exactly when it has an allowed tail at some position, trailing slashes aside. An allowed tail is a dot that is not the first character of the last path component, followed by `csv`, `json`, `xlsx` or `xls` in any letter case, with no further dot or slash. |
| Paths.AcceptsHasTail | app.js:22-24 | Every accepted name has such an allowed tail, at a position the lemma gives. |
| Paths.TailAccepts | app.js:22-24 | Conversely, a name with an allowed tail is accepted. |
| Paths.ExtNameOfSuffix | app.js:23 | A name made of a non-empty last component, a dot and a dot-free, slash-free word has that dotted word as its extension. |
| Paths.StoredExtension | app.js:53-55 | The stored path (temporary path plus the original extension, case kept) carries exactly that extension when Python's `splitext` reads it back. |
| Paths.AbsPath | merge.py:61 | `os.path.abspath` keeps the path as the tail of the result. It keeps an absolute path unchanged, and it makes every path absolute in an absolute working directory. |
| Paths.AbsPathKeepsExtension | merge.py:61 | Making a non-empty path absolute keeps its last component, and with it the extension `splitext` reads. |
| Ingest.FormatOfAllowed | merge.py:36-43 | A reader exists exactly for the four extensions the server allows. `.csv` selects the CSV reader, `.json` the JSON reader, and `.xlsx` or `.xls` the Excel reader. |
| Ingest.AcceptedUploadHasReader | merge.py:33 | For a plain temporary path, a worker finds a reader for the stored path exactly when the filter accepted the original name. |
| Ingest.DictOf | merge.py:17 | `json.load`'s dict has no repeated key, and every key looks up the value the document gives it last. |
| Ingest.Elements | merge.py:61 | A Python loop can visit exactly a list, a string or an object. `None`, booleans and numbers cannot be iterated, and an object yields the keys of its dict. |
| Ingest.ElementsOfNonEmpty | merge.py:57-61 | A list, string or object that passes the emptiness check has at least one item to visit, since an object's first key survives into its dict. |
| Ingest.FirstList | merge.py:19-21 | Nothing is found exactly when no value is a list. Otherwise the result is the first list-valued entry in iteration order. |
| Ingest.RecordsOfObject | merge.py:18-21 | An object yields the items of its first list-valued entry. |
| Ingest.RecordsOfObjectWithoutList | merge.py:22 | An object with no list-valued key is exactly one record. |
| Ingest.RecordsOfNonObject | merge.py:22 | A list yields one record per element. Any other non-object value is exactly one record. |
| Ingest.Frame | merge.py:21-22 | The model gives a table exactly when the records are all dicts, all lists or all scalars, and refuses any mix. A table has one row per record, holding that record's cell under each column. |
| Ingest.FrameOfDicts | merge.py:21 | Dict records give a table whose columns are the keys of all records, each once. Each record's value sits under its key's label. |
| Ingest.DictCell | merge.py:21 | A dict record's row holds each of its keys' values under that key's label. |
| Ingest.FrameRowCount | merge.py:22 | A document yields one row per record, and exactly one row when it is neither a list nor an object. |
| Tables.ReindexRowReads | merge.py:79 | Reindexing onto duplicate-free columns keeps each present value under its column. A column the table lacks reads as missing. |
| Tables.UnionColumnsSpec | merge.py:79 | The concatenation's columns have no repeats. They are exactly the names some table has, in order of first mention. |
| Tables.ConcatRowsLayout | merge.py:79 | Concatenation keeps every row. Row `i` of table `k` lands right after all rows of the earlier tables, reindexed onto the column union. |
| Tables.DropDuplicatesSpec | merge.py:79 | Rows are compared the way pandas compares them: cell by cell, with Python's `==`. After `drop_duplicates`, no two rows compare equal. Every remaining row is an input row, and every input row compares equal to a remaining one. The survivor of each group of equal rows is its first occurrence. The count shrinks exactly when two input rows compared equal. |
| Tables.Canonical | merge.py:79 | A cell is compared as Python compares it. `true` is `1` and `false` is `0`. `null` is the missing value, as pandas' factorization treats `None` and NaN alike. Every other cell is itself. |
| Tables.DropDuplicatesOrder | merge.py:79 | The survivors keep the order of their first occurrence. |
| Tables.PythonEqualCells | merge.py:79 | Of two rows that compare equal, the second is dropped. |
| Tables.TrueIsOne | merge.py:79 | A row holding `true` compares equal to one holding `1`, and `false`/`null` to `0`/missing. `true` does not compare equal to `2`. |
| Tables.UnhashableType | merge.py:79 | Only a nested list or dict cell fails to hash, and the type named is `list` or `dict`. |
| Tables.FirstUnhashableSpec | merge.py:79 | The scan finds nothing exactly when every cell hashes. Otherwise it names the type of a nested cell such that every earlier column, and every earlier row of its own column, hashes. |
| FirstPass.ReadFileChecks | merge.py:30-43 | A missing path fails as missing whatever its extension. The format is refused exactly for an existing path whose lower-cased extension is not one of the four, and the error names that lower-cased extension. |
| FirstPass.ReadFileErrors | merge.py:27-50 | `read_file` never raises a list-level error, and it succeeds only on an existing path. |
| FirstPass.StoredUploadIsReadable | merge.py:40-43 | A stored upload that passed the filter is never refused for its format, even after `merge_files` has made its path absolute (merge.py:61). |
| FirstPass.FirstMissing | merge.py:62-64 | Nothing is found exactly when every path exists. Otherwise the result is the first missing path. |
| FirstPass.NonEmpty | merge.py:70-71 | The kept tables are exactly the non-empty ones read, and there are no more of them than tables read. |
| FirstPass.NonEmptyKeepsOrder | merge.py:67-71 | The kept tables are the non-empty tables read, each once and in the order read. Kept table `j` is read table `idx[j]`, the positions strictly increase, and a position is among them exactly when its table is non-empty. |
| FirstPass.MergeFiles | merge.py:52-97 | The method computes `merge_files` on the parsed argument: the emptiness check, the iteration of the argument, `abspath` on every item, then the loops. A non-iterable argument fails with "'<type>' object is not iterable", and an item that is not a string fails in `abspath`. |
| FirstPass.MergePaths | merge.py:62-79 | The existence loop with its early raise, the read loop that appends every non-empty table, and the de-duplication compute the merge of the absolute paths. |
| FirstPass.AbsPaths | merge.py:61 | Every item is made absolute exactly when all items are strings. Otherwise the first item that is not a string fails, naming its Python type. |
| FirstPass.MergeArgumentCases | merge.py:57-61 | A list of strings is merged from their absolute paths, so "File not found" names the absolute path. A string is merged character by character and an object key by key. A list item that is not a string fails `abspath`. A non-zero number fails as "'int' object is not iterable", `true` as "'bool' object is not iterable", and `null` as "No files provided for merging". |
| FirstPass.NoFilesIffEmpty | merge.py:57-58 | "No files provided for merging" is the outcome exactly for an empty list. |
| FirstPass.MissingBeforeReading | merge.py:61-65 | The first missing path fails the merge before any file is read. |
| FirstPass.FirstReadFailure | merge.py:68-69 | When every path exists, the first failing read is the merge's error. |
| FirstPass.InnerCheckUnreachable | merge.py:30-31 | `read_file`'s own existence check never decides the outcome of a merge. |
| FirstPass.NoValidFilesIffAllEmpty | merge.py:69-77 | "No valid files to merge" is the outcome exactly when the list is non-empty and every file reads as an empty table. |
| FirstPass.AllReadsOk | merge.py:67-79 | When every file reads, the outcome depends only on the tables read. |
| FirstPass.MergeIsSummary | merge.py:76-79 | A successful merge is the summary of the kept tables. At least one table was kept, and no kept table holds a nested list or dict. |
| FirstPass.DeduplicateOutcome | merge.py:79 | `drop_duplicates` succeeds exactly when every kept table holds only hashable cells, and then gives the summary. Otherwise it fails with "unhashable type: 'list'" or "unhashable type: 'dict'". |
| FirstPass.NestedCellFails | merge.py:67-79 | Once every file reads and some table is kept, the merge succeeds exactly when no kept table holds a nested list or dict. Otherwise it fails naming the unhashable type. |
| FirstPass.SummaryCounts | merge.py:91-92 | `total_rows` is the merged length. `total_rows + duplicates_removed` is the number of input rows, so `duplicates_removed >= 0`. No two remaining rows compare equal, and the columns are the first-seen union. |
| FirstPass.SummaryKeepsEveryRow | merge.py:79 | Every input row, reindexed onto the union, compares equal to a row of the result. |
| FirstPass.SummaryInventsNoRow | merge.py:79 | Every result row is some input row reindexed onto the union. |
| FirstPass.NothingRemovedIffNoRepeat | merge.py:92 | `duplicates_removed` is 0 exactly when no two concatenated rows compare equal. |
| FirstPass.SameFileTwice | merge.py:79-92 | Two stored paths holding the same well-formed file, with no two rows comparing equal and no nested cell, merge to that file. Every row of the second copy is reported as a removed duplicate. |
| FirstPass.PythonEqualRowsMerge | merge.py:79-92 | Two one-row files over the same columns, whose rows compare equal, merge to the first file's row. One row is reported in total, and one as removed. |
| FirstPass.TrueFlagMatchesOne | merge.py:79-92 | An upload with `{"id": 1, "flag": true}` and one with `{"id": 1, "flag": 1}` merge to the first row alone, with `total_rows` 1 and `duplicates_removed` 1. |
| FirstPass.MergeMainOutcome | merge.py:99-131 | Exit status 0 goes with a report whose `success` is true, and every other status is 1. No arguments gives "No file paths provided", and an unparsable argument reports the parser's message. On a parsed argument, the status is 0 exactly when `merge_files` succeeds, and a failure reports its exception's message. |
| FirstPass.MainConsistent | merge.py:107-131 | Every run ends with status 0 and a successful report, or with status 1 and a failed one. |
| FirstPass.MainOnPaths | merge.py:119-122 | On a list of paths, the script prints the statistics of the merge of their absolute paths with status 0, or its error with status 1. |
| Mapping.ReadFileChecks | mapping.py:10-26 | Every failure is re-raised naming the file. An unsupported lower-cased extension is refused before the file is touched. A missing file with a supported extension is reported as missing. |
| Mapping.RenameSpec | mapping.py:43-45 | A header that is a key of the mapping takes the mapped name. Every other label stays, and no cell changes. |
| Mapping.RenameIdempotent | mapping.py:44 | When no new name is itself mapped, renaming twice equals renaming once. |
| Mapping.RenameNothing | mapping.py:44 | An empty mapping changes nothing. |
| Mapping.RenameAll | mapping.py:43-45 | The in-place loop renames every frame where it lies. |
| Mapping.ColumnSetMembers | mapping.py:48 | The union holds exactly the names some table has. |
| Mapping.RenamedColumnSet | mapping.py:44-48 | After renaming, the union holds exactly the renamed labels of the original columns. |
| Mapping.PadSpec | mapping.py:49 | A padded row has exactly the union of names. It keeps its value under each column it had, and the missing marker under each column it lacked. |
| Mapping.CombineLayout | mapping.py:52 | The merge has exactly as many rows as the inputs together, with no de-duplication. Rows keep file order, then row order. |
| Mapping.CombineRowsOverUnion | mapping.py:48-52 | Every merged row is keyed by exactly the column set. |
| Mapping.MergeFiles | mapping.py:28-52 | The step-by-step merge computes the merge specification. That is the reads, the preview's lookup `file_paths[0]` (a `KeyError` for a dict), the in-place renaming of an array of frames, the union, the padding and the concatenation. |
| Mapping.TooFewIffFewerThanTwo | mapping.py:31-32 | "At least two files are required for merging" is the outcome exactly for fewer than two paths. A read failure is reported as such. |
| Mapping.ReadFailureNamesFile | mapping.py:26 | A failed read in the list is reported as a read failure naming its file. |
| Mapping.FirstReadFailure | mapping.py:35 | With at least two paths, the first unreadable file decides the failure. |
| Mapping.DictPathsFail | mapping.py:35-39 | A dict of at least two readable paths is read key by key. The preview's `file_paths[0]` then raises `KeyError(0)`, and the merge fails with the message "0". |
| Mapping.MergeKeepsEveryRow | mapping.py:35-52 | When every file reads and no renamed table repeats a name, the merge succeeds with every input row. |
| Mapping.CollidingRenames | mapping.py:44-49 | Two headers of one table renamed to the same name make the merge fail. |
| Mapping.MainExitStatus | mapping.py:77-107 | The exit status is 0 exactly when both arguments parse and the mapping is an object, whatever the merge did. Fewer than two arguments gives status 1 with "No column matches or file paths received". |
| Mapping.SingleFileExitsZero | mapping.py:67-72 | A run on one stored file exits with status 0 although its report says the merge failed. |
| Mapping.ReportingFailureExitStatus | mapping.py:96-99 | With the corrected `main`, status 0 means a successful report, and on a list of paths exactly a successful merge. The report is unchanged. |
| Server.Member | app.js:95 | A property is found only on an object that has that key. |
| Server.Own | app.js:147 | What object spread and `Object.keys` enumerate has no repeated key. |
| Server.ClassifyMerge | app.js:79-118 | The merge worker's run is accepted exactly for status 0, parsable output and a truthy `success`, and it then carries `column_matches`. A nonzero status gives 500 "Error merging files". Unparsable output or `null` gives 500 "Error processing merge results". Otherwise the result is 500 "Error in merge process". |
| Server.FirstPassOutcomeClassified | app.js:95-96 | The merge worker's own runs on the stored paths are accepted exactly when the merge of their absolute paths succeeds, and then with `column_matches` undefined, so `/columns` refuses to render. A failed merge gives 500 "Error merging files". |
| Server.SummaryAccepted | app.js:95-96 | The success report of the merge worker is accepted with no column matches. |
| Server.AcceptsPayload | app.js:140 | The edit payload passes exactly when it is an array or an object. |
| Server.ShowsColumnsIff | app.js:168 | `/columns` renders exactly for a stored non-empty object, array or string. |
| Server.ShallowMerge | app.js:147 | An edit repeats no key. A key in the payload takes the payload's value, any other key keeps its stored value, and the stored keys keep their places at the front. |
| Server.EditIdempotent | app.js:147 | Sending the same edit twice equals sending it once. |
| Server.SubmitGuardOrder | app.js:178-225 | A missing or falsy `columnMatches` gives 400 whatever is stored. An empty batch gives 400 next, and neither starts the worker. The worker starts exactly when both checks pass, with the body's matches and the stored paths. A success reply with the `/download` link comes exactly when the worker exits with status 0. |
| Server.SubmitBodyPasses | app.js:178-195 | The column page's body passes both guards when a batch is stored, and the reply follows the exit status. |
| Server.SingleFileSubmitSucceeds | app.js:208-225 | As written, a submit after a single-file upload replies with success and a download link, although the mapping merge was refused. |
| Server.CorrectedSubmitReportsMerge | app.js:208-225 | With the corrected worker, a submit replies with success exactly when the mapping merge succeeds. |
| Server.DeletionsSpec | app.js:250-257 | The deletion loop tries every stored path in order, skipping none. A path is deleted exactly when it still exists at its turn, a failed attempt is logged and the loop goes on, and afterwards exactly the stored paths are gone. |
| Server.StoredPathsReadable | app.js:53-58 | A batch passes the filter exactly when every stored path has an extension a worker reads. The worker still reads that extension once the path is made absolute. |
| Server.Session.constructor | app.js:37 | The session starts with no stored paths and an empty `columnMatches` object (app.js:132). |
| Server.Session.Merge | app.js:39-129 | A rejected file gives 500 "Server error" (the error middleware, app.js:262-269) and changes nothing. An empty upload gives 400 "No files uploaded" and changes nothing. Otherwise the stored paths replace `uploadedFiles` entirely, the reply is the classification's, and only an accepted run assigns `columnMatches`. |
| Server.Session.UpdateColumns | app.js:135-164 | A payload that is not an array or object gives 400 and changes nothing. Otherwise `columnMatches` becomes the spread of the stored and the new matches, is echoed back, and `uploadedFiles` is untouched. |
| Server.Session.ColumnsPage | app.js:167-172 | The page renders exactly for a stored non-empty object, array or string. Otherwise the reply is 500 "No column matches available". |
| Server.Session.SubmitColumns | app.js:176-235 | The endpoint answers as the submit rules say and changes no state. |
| Server.Session.Download | app.js:237-260 | A failed send gives 500 "Error downloading file" and deletes nothing. A successful send makes the loop's deletions equal the deletion rule over every stored path, and `uploadedFiles` is not cleared. |

## Left out

- Letter case: `Paths.Lower` folds ASCII letters only. JavaScript's `toLowerCase` and Python's `lower` also fold other scripts, and the model does not.
- Server.ShallowMerge: keys keep insertion order. JavaScript enumerates integer-like keys first, in ascending order, and the model does not.
- Server.Own: prototype properties and the `length` of arrays and strings are not modelled. Only own indexed entries and object keys are.
- Server.Session.Merge: multer stores the files before a later one is rejected. Those partial writes, `fs.renameSync` and its failures are not modelled. Storing is the naming rule.
- Server.ClassifyMerge: the exit status is an integer. A worker killed by a signal (a `null` code) counts as nonzero, as `code !== 0` does.
- Server.Session.Download: `res.download`'s outcome is the `sent` input. The file system is a set of existing paths, and an `unlinkSync` error is an attempt that deletes nothing.
- Server.Decoded: `JSON.stringify` followed by `json.loads` is taken to give every value back.
- Server.Session.ColumnsPage: the page is not rendered, and a failure of `res.render` is not modelled.
- Server.Submit: the body parser's own refusals of malformed JSON are not modelled. The parsed body is the input.
- The reply fields `error`, `debug`, `rawOutput` and `pythonOutput`, the printed `traceback`, the `DEBUG:` lines and the text of the prints of `mapping.py` are left out. They carry log text. The preview's lookup `file_paths[i]` is modelled, because it raises for a dict.
- Paths.AbsPath: `os.path.abspath` also normalises the joined path, removing `.` and `..` components and repeated slashes. The model only joins. The working directory is an input.
- The disk holds files only. `os.path.exists` is also true for a directory, and pandas then fails to read it; the model has no directories.
- Ingest.Frame: the model refuses every mix of record shapes, where pandas decides by the first record. A scalar first record gives one column `0`. After a list record, a dict record is read as the list of its keys and a string as its characters, while a number, boolean or `null` fails with "object of type ... has no len()". A dict first record followed by a record that is not a dict fails with an `AttributeError`. The model's message "records of mixed shapes" is not pandas' text.
- Subprocess plumbing is replaced by inputs: spawning, stdout/stderr accumulation and the exit code.
- The pandas readers are left out: `pd.read_csv`, `pd.read_excel` and the CSV and Excel parsing. The stored content of a file is what each reader yields for it, or the reader's error message.
- Reader tables are not required to be well formed. The real readers never give a repeated header or a short row, so a table with either is not a case merge.py meets. The model reads such a table by the first occurrence of a label, where pandas' reindex would raise.
- The disk map: `merge.py` reads a file under its absolute path and `mapping.py` under the path as given. One stored file is therefore under two keys of the map, and no lemma relates the two workers' reads of one file.
- `to_csv` and `os.makedirs` are left out, along with their failures. The merged table is the result.
- Numbers are integers. Float and NaN semantics are not modelled. A missing value is an explicit marker equal to itself, as `drop_duplicates` treats it, and a `null` cell compares equal to it.
- Mapping.PyText: the text of a list or dict that is not a string, inside an error message, is a placeholder rather than Python's `repr`. Error messages do not reproduce `repr` quoting.
- Labels: Python hashes `True` and `1` as the same dict key. Such labels and unhashable labels are not modelled. Labels are JSON values compared structurally.
- Mapping.MergeSpec: the order of the column set at mapping.py:48 is unspecified in Python. The merged table has a set of columns, and each row is a map over it.
- Concurrency between requests is not modelled. The session is one object, and each handler runs to completion.
- public/js/script.js is browser UI and is not part of this model.

## Findings

| source | as written | input that shows it | evidently intended | confidence | as-written member | corrected member |
|---|---|---|---|---|---|---|
| mapping.py:67-72 | `merge_files` returns its failure as a JSON string, and `main` prints it and exits with status 0, so app.js:208-225 replies with success and a `/download` link | a submit after an upload of a single file: the merge refuses "At least two files are required for merging", yet the reply is 200 success with the download link, which serves the previous or a missing `merged_output.csv` | a failed merge exits with status 1, as merge.py does, so the server reports the failure | not executed | Mapping.SingleFileExitsZero, Server.SingleFileSubmitSucceeds | Mapping.ReportingFailureExitStatus, Server.CorrectedSubmitReportsMerge |
