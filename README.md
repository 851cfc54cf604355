# Batch certificate issuance, modelled in Dafny

This project models the batch issuance pipeline of the certificate portal's
backend (`backend/routes/batchRoutes.js`). It has two request handlers.

- **Upload** (`/upload-zip`). It opens the uploaded archive and picks the
  mapping entry. It reads the mapping rows: CSV by hand, spreadsheets through
  a library. It refuses more rows than `MAX_LIMIT`. It splits the rows into
  valid and invalid, where a row is valid when its filename is exactly an
  entry name. It stores a new batch with status `validated`. It answers with
  the counts, chunks of 50 valid filenames and a time estimate.
- **Start issuance** (`/start-issuance`). It sets the batch to
  `processing`. It finds the mapping file again in the extraction directory
  by a priority list, or falls back to the PDF files with made-up ids
  `id-<i>`. It walks the mappings in order. A missing source gives a
  `failed` result with reason `missing source`. A present source is stamped
  with a QR image and gives an `issued` result. A `batch:update` event
  carries the running issued count after each result. At the end the status
  becomes `completed` and the results are stored.

Modules, leaves first:

- `Wrappers` (wrappers.dfy): `Option` and `Result`.
- `JsText` (jstext.dfy): the JavaScript semantics the handlers rely on.
  This covers truthiness and `||` chains, `find`, `filter`, `split` with a
  one-character separator, the line split `/\r?\n/`, `trim`,
  case-insensitive suffix and infix tests, and decimal printing of numbers.
- `Csv` (csv.dfy): the hand-written CSV reader and synonym resolution of
  row fields.
- `Archive` (archive.dfy): archive entries and the choice of the mapping
  entry at upload.
- `Validator` (validator.dfy): the row partition, the chunk plan and the
  estimate.
- `Issuance` (issuance.dfy): the mapping-file choice at issuance, the
  per-row step, the loop, the progress events and the `Batch` class.
- `Store` (store.dfy): the batch collection (`BatchStore`) with the two
  entry points, and lemmas on where the two handlers read the same archive
  differently.

Library calls are abstracted as data:

- A stored file is a `Content` value. It holds its UTF-8 text, what the
  spreadsheet reader makes of it (or that the reader throws), and the widths
  of its PDF pages (or that loading the PDF or embedding the image throws).
- The extraction directory is the `Env` of a run. It holds the directory
  listing, the files by name, the project records, and the ids whose
  verification URL the QR library refuses.
- Each `drawImage` call is recorded as a `Stamp`.

Points where the code does something one might not expect, and the model
follows the code:

- The loop has no per-row `catch`. An exception in one row (PDF load, image
  embed, a row with no filename, an empty filename, a PDF without pages, a
  refused QR payload) ends the whole run. The status stays `processing` and
  the stored results are not replaced (`Issuance.Batch.StartIssuance`).
- The status is set to `processing` before anything that can fail, so an
  early failure does not leave the status as it was.
- The upload takes the first spreadsheet or CSV entry in archive order.
  There is no priority among names and no uniqueness.
- A row is valid when its filename resolves and is an entry name. A
  certificate id is not needed.
- A missing source still yields one result per row: a `failed` one. So the
  result count does not fall below the mapping count.

## Model

| member | source | states |
|---|---|---|
| `JsText.OrChain` | backend/routes/batchRoutes.js:75-76 | `a || b || ...` yields the first truthy operand, and the last operand when none is truthy |
| `JsText.OrChainSnoc` | backend/routes/batchRoutes.js:180 | appending one more operand to a `||` chain changes the result only when the chain so far is falsy |
| `JsText.Find` | backend/routes/batchRoutes.js:37-39 | `find` returns the first element that passes the test, and nothing only when none passes |
| `JsText.FindInFilter` | backend/routes/batchRoutes.js:34-39 | finding in a filtered list finds the same element as finding the first element that passes both tests |
| `JsText.Filter` | backend/routes/batchRoutes.js:170-171 | `filter` keeps exactly the elements that pass the test, and no more of them than there were |
| `JsText.FilterAppend` | backend/routes/batchRoutes.js:170-171 | `filter` distributes over concatenation, so it keeps the order and the multiplicity of the elements it keeps |
| `JsText.FilterRank` | backend/routes/batchRoutes.js:170-172 | a kept element sits in the filtered list at the position equal to the number of kept elements before it |
| `JsText.NonEmptyFirst` | backend/routes/batchRoutes.js:50 | the first element left by `.filter(Boolean)` is the first non-empty string of the list |
| `JsText.Split` | backend/routes/batchRoutes.js:51-53 | `split(',')` gives at least one piece, and no piece holds the separator |
| `JsText.SplitThenJoin` | backend/routes/batchRoutes.js:51-53 | joining the pieces of a split with the separator gives back the original string |
| `JsText.JoinThenSplit` | backend/routes/batchRoutes.js:51-53 | splitting a join of separator-free pieces gives back the pieces |
| `JsText.SplitLines` | backend/routes/batchRoutes.js:50 | the `/\r?\n/` split gives one line per line-feed-separated piece: each piece but the last loses exactly one trailing carriage return if it has one, the last is kept as is, and no line holds a line feed |
| `JsText.Trim` | backend/routes/batchRoutes.js:51 | `trim` gives the infix of the string that neither starts nor ends with white space, and everything cut off is white space |
| `JsText.NatToStringRoundTrip` | backend/routes/batchRoutes.js:172 | the decimal digits printed for a number read back as that number |
| `JsText.NatToStringInjective` | backend/routes/batchRoutes.js:172 | distinct numbers print as distinct strings |
| `Csv.LastIndex` | backend/routes/batchRoutes.js:55 | the header index a repeated header's value is taken from is its last occurrence |
| `Csv.RecordSnoc` | backend/routes/batchRoutes.js:55 | one step of the header loop sets that header to its column's value and leaves the other keys unchanged |
| `Csv.RecordAt` | backend/routes/batchRoutes.js:55 | a header holds its column's value, or `''` when the line has fewer columns |
| `Csv.Headers` | backend/routes/batchRoutes.js:51 | header names are the trimmed comma-separated pieces of the first line |
| `Csv.BuildRecord` | backend/routes/batchRoutes.js:54-55 | the header loop builds exactly the record of the line's columns under the headers |
| `Csv.RecordsOfAt` | backend/routes/batchRoutes.js:52-56 | data row `k` is the record of data line `k` under the headers |
| `Csv.CsvHeaderLine` | backend/routes/batchRoutes.js:50-51 | the header line is the first non-empty line of the payload |
| `Csv.ParseCsv` | backend/routes/batchRoutes.js:50-57 | the CSV reader yields the records of the non-empty lines after the header, and fails when there is no non-empty line |
| `Csv.ParseLines` | backend/routes/batchRoutes.js:51-57 | the row loop over the non-empty lines yields one record per line after the header line, in line order |
| `Csv.CsvRowKeys` | backend/routes/batchRoutes.js:51-56 | every parsed row has exactly the trimmed header names as keys |
| `Csv.CsvRowCount` | backend/routes/batchRoutes.js:50-57 | the reader succeeds exactly when there is a non-empty line, and then yields one row per non-empty line after the first |
| `Csv.ResolveFirstNonEmpty` | backend/routes/batchRoutes.js:75-76 | a synonym list resolves to a non-empty value exactly when some synonym holds one, and then to the first such synonym's value |
| `Archive.EntryNames` | backend/routes/batchRoutes.js:69 | the name list has one name per file entry, in entry order |
| `Archive.MappingEntryIsFirst` | backend/routes/batchRoutes.js:34-43 | the mapping entry is the first non-directory entry named `.xls`, `.xlsx` or `.csv` (any case); there is none exactly when no such entry exists |
| `Validator.Partition` | backend/routes/batchRoutes.js:74-83 | the partition loop yields exactly the valid items and the invalid items of the rows, in row order |
| `Validator.PartitionCounts` | backend/routes/batchRoutes.js:71-91 | every row lands in exactly one list: `validCount + invalidCount == total` |
| `Validator.PartitionSound` | backend/routes/batchRoutes.js:74-83 | a valid item's filename is non-empty and an entry name; an invalid item holds a row that is not valid, with reason `file missing` |
| `Validator.PartitionComplete` | backend/routes/batchRoutes.js:74-83 | every row is listed: a valid row as its item in `valid`, any other row in `invalid` with reason `file missing` |
| `Validator.RemovingTheEntryInvalidates` | backend/routes/batchRoutes.js:78 | a valid row becomes invalid once its entry is removed from the archive's names |
| `Validator.ChunkCount` | backend/routes/batchRoutes.js:104 | the chunk count is `ceil(v / 50)`: the least count whose 50-name chunks hold `v` names |
| `Validator.BuildChunks` | backend/routes/batchRoutes.js:105-108 | the chunks concatenate to the valid filenames in order; there are `ceil(v / 50)` of them, all of 50 except the last, which has 1 to 50 |
| `Validator.ChunkPlanUnique` | backend/routes/batchRoutes.js:105-108 | two chunk plans of the same names are equal, so the plan is determined by those properties |
| `Validator.FlattenAt` | backend/routes/batchRoutes.js:106-107 | chunk `k` is the slice at offset `50 * k` of the concatenation |
| `Validator.EstimatedSeconds` | backend/routes/batchRoutes.js:104 | the estimate is `0.5 * v + 0.2 * ceil(v / 50)` rounded to the nearest integer, halves up |
| `Issuance.ChooseMappingFile` | backend/routes/batchRoutes.js:148-150 | the mapping file is the first name containing `certificate_map.` with a spreadsheet or CSV extension, else the first `.xlsx`, else the first `.csv`; there is none exactly when no name qualifies |
| `Issuance.PdfFallback` | backend/routes/batchRoutes.js:168-173 | without a mapping file there is one mapping per PDF name of the listing |
| `Issuance.FallbackRows` | backend/routes/batchRoutes.js:170-172 | fallback mapping `i` resolves to the `i`-th PDF name and the id `id-<i>` |
| `Issuance.FallbackNumbering` | backend/routes/batchRoutes.js:170-172 | the PDF at listing position `j` is fallback mapping `i`, where `i` counts the PDFs listed before it, and its id is `id-<i>` |
| `Issuance.FallbackIdsDistinct` | backend/routes/batchRoutes.js:172 | the synthesised fallback ids are pairwise distinct |
| `Issuance.IssueId` | backend/routes/batchRoutes.js:180 | the certificate id is the first id synonym holding a value, else the filename |
| `Issuance.QrPlacement` | backend/routes/batchRoutes.js:204-208 | the QR image is 100 by 100; a coordinate that is unset or 0 falls back to 40 points from the page's right edge and 40 from its bottom edge |
| `Issuance.RowResult` | backend/routes/batchRoutes.js:179-213 | a row that does not throw names its file with a non-empty id; it fails with `missing source` exactly when its source is absent, and otherwise is issued with URL `/uploads/issued/<batchId>/<fname>` |
| `Issuance.AbortIsFinal` | backend/routes/batchRoutes.js:178-235 | once a row throws, later rows change nothing |
| `Issuance.CollectShape` | backend/routes/batchRoutes.js:178-222 | the loop yields one result per row outcome in order up to the first throw; it throws exactly when it stops short |
| `Issuance.StampsMatchIssued` | backend/routes/batchRoutes.js:208-213 | when stamped outcomes are exactly the issued ones, each on its own file, the stamped files are the issued files, one stamp each, in result order |
| `Issuance.StampedRow` | backend/routes/batchRoutes.js:193-213 | a stamped row is issued on its own file, which exists and has a first page, and its image sits at the placement for that page's width |
| `Issuance.StampedIffIssued` | backend/routes/batchRoutes.js:193-213 | the images a run draws are one per issued result, on the issued files in result order, each on that file's first page at the QR placement for its width |
| `Issuance.AttemptShape` | backend/routes/batchRoutes.js:178-222 | one result per mapping in mapping order; the run throws exactly when some mapping row throws |
| `Issuance.CompleteRun` | backend/routes/batchRoutes.js:178-226 | with no throwing row every mapping gets a result; it is `issued` exactly when its source exists, else `failed` with `missing source` |
| `Issuance.AllSourcesReady` | backend/routes/batchRoutes.js:193-219 | when every source is present and stampable, every result is `issued` with a download URL and the issued count equals the mapping count |
| `Issuance.IssuedCountAll` | backend/routes/batchRoutes.js:217 | the issued count of a list of issued results is its length |
| `Issuance.Progress` | backend/routes/batchRoutes.js:189 | one progress event per result |
| `Issuance.IssuedCountMonotone` | backend/routes/batchRoutes.js:217 | the issued count of a longer prefix is no smaller, and larger by at most the extra length |
| `Issuance.ProgressMonotone` | backend/routes/batchRoutes.js:215-219 | the issued counts of the progress events never decrease, the `k`-th is at most `k + 1`, and the last equals the issued results |
| `Issuance.ProgressAt` | backend/routes/batchRoutes.js:189 | progress event `k` counts the issued results among the first `k + 1` |
| `Issuance.ProgressSnoc` | backend/routes/batchRoutes.js:213-219 | pushing a result appends exactly one event, carrying the new issued count |
| `Issuance.ReadMappings` | backend/routes/batchRoutes.js:147-173 | the mappings are read from the chosen file (CSV by extension, else spreadsheet) or synthesised from PDF names; reading fails when the file is unreadable or empty |
| `Issuance.IssueOne` | backend/routes/batchRoutes.js:179-213 | one pass of the loop body: it throws on a refused QR payload, an unresolved or empty filename, an unloadable PDF or one without pages; otherwise it yields the `failed` or `issued` result of the per-row step |
| `Issuance.IssueAll` | backend/routes/batchRoutes.js:176-222 | the loop's results, events and drawn images are those of the run over the mappings, and it stops at the first row that throws |
| `Issuance.Batch.constructor` | backend/routes/batchRoutes.js:86-93 | a new batch carries the given counts, status `validated` and no results |
| `Issuance.Batch.StartIssuance` | backend/routes/batchRoutes.js:138-228 | the status becomes `processing`; a full run ends `completed` with the run's results stored, while a throw leaves `processing` and the old results; events are the progress events plus, on completion only, the completion event |
| `Store.ReadUpload` | backend/routes/batchRoutes.js:31-63 | no file, an unreadable archive, no mapping entry and an unreadable mapping are told apart in that order; otherwise the file entries and the mapping rows, read as CSV by extension and as a spreadsheet otherwise |
| `Store.BatchStore.UploadZip` | backend/routes/batchRoutes.js:29-120 | errors and the row limit create no batch, and the limit error reports the row count; otherwise one fresh `validated` batch whose counts add up, a reply with those counts, the estimate and the chunk plan |
| `Store.BatchStore.StartIssuance` | backend/routes/batchRoutes.js:132-139 | an unknown batch id is answered not found; otherwise only that batch runs, and success is answered exactly when the run completes |
| `Store.FileNameHeaderOnlyAtUpload` | backend/routes/batchRoutes.js:75 | a row with its filename under `fileName` is valid at upload, yet its issuance throws, since line 179 does not read `fileName` |
| `Store.XlsMappingOnlyAtUpload` | backend/routes/batchRoutes.js:37-39 | an archive whose mapping is `data.xls` is validated against it, yet issuance (line 149 matches `.xlsx` only) finds no mapping file and falls back to the PDFs |

## Left out

- XLSX parsing, the QR image generator, pdf-lib (load, embed, draw, save),
  AdmZip and the file system are not modelled. Their outcomes are inputs:
  the `Content` of each file and the `Env` of a run.
- Spreadsheet cell values are modelled as strings. A numeric cell (a
  number 0, say) does not get JavaScript's truthiness for numbers.
- Case-insensitive name tests use ASCII case folding. For the ASCII
  patterns involved this matches JavaScript's non-Unicode `/i`. For
  `toLowerCase` it ignores the few non-ASCII characters that lower-case to
  more than one character.
- `MAX_LIMIT` is a parameter. A non-numeric setting, which makes it `NaN` and
  disables the limit, is not modelled.
- The verification URL and its `encodeURIComponent` encoding are not
  modelled. Only whether the QR library refuses an id is modelled.
- Path joining and normalisation are not modelled. A filename is looked up
  as given. The only special cases are `undefined` (the join throws) and the
  empty name (the join yields the extraction directory itself).
- Writing the stamped PDF, creating the output directory, extracting the
  archive after the batch is saved, and saving the batch record are assumed
  to succeed. A failure of any of them would surface as a server error.
- Stamped PDF bytes are not modelled. Each `drawImage` is recorded as a
  `Stamp`: file, position and size.
- The 300 ms pacing delay, socket delivery, request and response plumbing,
  the batch `createdAt` timestamp and the MongoDB id generator are left out.
  The new batch id is a parameter.
- The status route (`/status/:batchId`) is a plain lookup, and the download
  route (`/download-issued/:batchId`) only lists a directory and writes a
  zip. Both are I/O only and are not modelled.
- Overlapping runs on the same batch are not modelled. The code does not
  guard against them, and the model is sequential.
- The HTTP status codes are not modelled: 400 for the handler's own checks
  (lines 31, 42, 66), 404 for an unknown batch, 500 for what throws. The
  model returns the error kind instead.
- `Store.BatchStore.UploadZip` requires a new id that is not yet stored. The
  MongoDB id generator guarantees this, and the model takes the id as a
  parameter.
- `Store.BatchStore.StartIssuance`: a malformed id, which makes the
  `findById` lookup throw (500), is not distinguished from an unknown id.
