# Nature Counter journal export, modelled in Dafny

The Nature Counter pipeline (`pipeline_project.py`) copies finished journals from MongoDB into
an Excel workbook kept in a Google Drive folder. One pass (`run_once`) works like this:

- In incremental mode it first reads a cursor from `watermark.json` in the folder. When that
  file is missing or unreadable, it migrates the cursor from the `journal_id` column of the
  existing workbook and saves it.
- It fetches the journals whose end time is set and whose `_id` is past the cursor, projects
  each one to a flat row and sorts the rows by `journal_id`.
- It cleans the rows. Cleaning infers the country, converts the coordinates, tidies the place
  text and adds the missing export columns.
- It appends the cleaned rows to the existing workbook, cut to the export columns, and uploads
  the result.
- Only after the upload, and only in incremental mode, it saves the `journal_id` of the last
  fetched row as the new cursor.

The model has one module per concern:

- `Text`: character classes, `upper`/`lower`, `strip`, and the query escape `_escape_q`.
- `ObjectIds`: an ObjectId as a 96-bit number whose string form is 24 lowercase hex digits.
  Comparing the strings compares the numbers.
- `Country`: `US_STATES` and `decide_country`.
- `Place`: the `n_Place` clean-up.
- `Projection`: the `$project` stage and its `$ifNull`/`$concat`/`$arrayElemAt` fall-backs.
- `Frames`: tables as column lists and rows of text cells, and `FINAL_COLS`.
- `Cleaning`: `clean`, as an imperative method proved against `CleanSpec`.
- `Extract`: `fetch`, meaning the `$match` cursor, the sort, the frame built from the
  documents and the returned cursor.
- `Store`: the Drive folder as a sequence of named objects. It covers `find_file_id`,
  `download_excel`, `upload_excel`, `save_watermark` and `get_watermark` with its migration,
  together with the class `Drive`, whose methods update that sequence.
- `Pipeline`: the merge loop and `run_once` as methods on a `Drive`, each proved against a
  run specification (`RunSpec`). That specification records the outcome and the ordered
  list of writes the run makes to the folder.

`US_STATES` holds 54 codes: the 50 states, DC, PR, GU and VI. American Samoa (AS) and the
Northern Mariana Islands (MP) are not among them, and the model has the same 54 codes.

## Model

| member | source | states |
|---|---|---|
| Text.EscapeQ | pipeline_project.py:74-75 | the result is at least as long as the input, and every quote in it is preceded by a backslash |
| Text.EscapeRoundTrip | pipeline_project.py:74-75 | reading the escaped name back gives the original name, so the escape loses nothing |
| Text.Strip | pipeline_project.py:225 | `strip(chars)` returns a contiguous piece of the input that neither starts nor ends with a stripped character, and every character removed before or after it is a stripped character |
| Text.StripsTrim | pipeline_project.py:225 | stripping the left end and then the right end leaves a piece with only stripped characters around it |
| Text.StripIdempotent | pipeline_project.py:225 | stripping twice gives the same result as stripping once |
| ObjectIds.ObjectIdIs96Bits | pipeline_project.py:158 | the 24-digit hex form covers exactly the numbers below 2^96 |
| ObjectIds.ParseOid | pipeline_project.py:271 | `ObjectId(s)` succeeds exactly on 24 hex digits of either case |
| ObjectIds.HexRoundTrip | pipeline_project.py:304 | the `journal_id` string of an id parses back to that same id |
| ObjectIds.ParseThenHex | pipeline_project.py:271-275 | parsing then printing gives the lowercased input |
| ObjectIds.HexInjective | pipeline_project.py:158 | two ids have the same `journal_id` exactly when they are equal |
| ObjectIds.HexOrder | pipeline_project.py:196 | string order on `journal_id` values is numeric order on the ids, in both directions |
| Country.DecideCountry | pipeline_project.py:115-127 | the result is "USA", "" or the trimmed location country |
| Country.DecideCountryCases | pipeline_project.py:115-127 | a non-empty trimmed location country decides alone; otherwise a US state code decides; otherwise the result is "USA" exactly when some word of the upper-cased address is a US code, and "" otherwise |
| Country.TokensFromAreWords | pipeline_project.py:123-124 | the tokens of `re.split(r"[^A-Za-z]+")` with empties dropped are exactly the maximal letter runs |
| Country.StateTokenIsWord | pipeline_project.py:123-126 | some token of the upper-cased address is a US code exactly when some maximal letter run of it is |
| Country.LocCountryDecides | pipeline_project.py:116-120 | a non-empty location country gives "USA" for a US spelling and is returned trimmed otherwise |
| Country.StateDecides | pipeline_project.py:121-122 | with no location country, a US code in the state field gives "USA" |
| Country.AddressExample | pipeline_project.py:123-126 | "TX" as a word of the address gives "USA" |
| Country.StateExample | pipeline_project.py:121-122 | state "CA" with no location country gives "USA" |
| Country.ForeignCountryExample | pipeline_project.py:116-120 | "Canada" passes through unchanged |
| Country.UsSpellingExample | pipeline_project.py:116-119 | "u.s." is normalised to "USA" |
| Place.Collapse | pipeline_project.py:225 | `re.sub(r"\s{2,}", " ")` leaves no two adjacent whitespace characters, never lengthens the text, keeps the first character unless it is whitespace, and keeps every non-whitespace character in order |
| Place.CollapseConcat | pipeline_project.py:225 | the substitution works piece by piece across a boundary that follows a non-whitespace character |
| Place.CollapseLone | pipeline_project.py:225 | a lone whitespace character between non-whitespace characters (or the ends) is kept as it is |
| Place.CollapseRun | pipeline_project.py:225 | a run of two or more whitespace characters between non-whitespace characters (or the ends) becomes one space |
| Place.CollapseKeeps | pipeline_project.py:225 | text with no double whitespace is left unchanged |
| Place.CleanPlace | pipeline_project.py:225 | the cleaned place has no two adjacent whitespace characters and no space or comma at either end |
| Place.CleanPlaceTrims | pipeline_project.py:225 | the cleaned place is the substituted text with only spaces and commas removed, and only from its two ends |
| Place.CleanPlaceKeepsText | pipeline_project.py:225 | every character that is neither whitespace nor a comma survives the clean-up, in order |
| Place.CleanPlaceIdempotent | pipeline_project.py:225 | cleaning a cleaned place changes nothing |
| Place.EmptyPlace | pipeline_project.py:180-184 | the concatenation for a location with no name, city or state cleans to "" |
| Projection.IfNull | pipeline_project.py:169 | `$ifNull` yields its first argument unless that is null or missing, and the fallback otherwise |
| Projection.StateField | pipeline_project.py:174 | `State` is `stateInitials`, else `state`, else "", and is never null |
| Projection.PlaceField | pipeline_project.py:180-184 | the `$concat` succeeds exactly when name, city and state are strings after their defaults |
| Projection.ElemAt | pipeline_project.py:191 | `$arrayElemAt` fails exactly on a value that is neither null nor an array |
| Projection.ParkField | pipeline_project.py:191 | a non-null `parkNumber` is used as it is |
| Projection.ParkFallback | pipeline_project.py:191 | without a park number the first category is used; an empty category list leaves the field out; a null category gives null |
| Projection.NameToOut | pipeline_project.py:156-195 | a column name maps back only to the field it names |
| Projection.NameRoundTrip | pipeline_project.py:156-195 | every emitted field's column name leads back to that field |
| Projection.ProjectDoc | pipeline_project.py:156-195 | a projection fails exactly when the duration arithmetic, `$concat` or `$arrayElemAt` fails, and otherwise emits exactly the fields whose value is not left out |
| Projection.ProjectDocFilled | pipeline_project.py:169-194 | every `$ifNull`/`$concat` field is present and not null |
| Projection.ProjectDocValues | pipeline_project.py:158 | every field holds its projected value; `journal_id` is the id's hex form and `n_Place` the concatenation |
| Projection.Filled | pipeline_project.py:169-194 | an `$ifNull`/`$concat` field is computed and not null once the concatenation succeeds |
| Projection.PositionOrder | pipeline_project.py:145-154 | without explicit coordinates, element 1 of a GeoJSON position of two or more elements is the latitude and element 0 the longitude; an altitude is ignored |
| Projection.ShortPosition | pipeline_project.py:145-154 | a one-element position gives its element as the longitude and leaves the latitude out of the document |
| Projection.PositionOnlyWhenArray | pipeline_project.py:145-154 | a position that is not an array gives null coordinates |
| Projection.ExplicitCoordinatesWin | pipeline_project.py:186-189 | `lat`/`latitude` (`lng`/`longitude`) take precedence over the position, in that order |
| Projection.NoLocationPlace | pipeline_project.py:143 | a journal whose location did not join gets the place ",  " |
| Frames.Column | pipeline_project.py:212 | `df.get(c, "")` gives one cell per row, "" where the column is missing |
| Frames.Fill | pipeline_project.py:232 | a constant column has the given text in every row |
| Frames.WithColumn | pipeline_project.py:218 | assignment sets that column row by row, appends a new column last, keeps every other cell, and keeps the table well formed |
| Frames.AppendMissing | pipeline_project.py:234-236 | membership is the union of the old columns and the names, the old columns stay a prefix, and no column is duplicated |
| Frames.AppendedInOrder | pipeline_project.py:234-236 | missing names are appended in the order of their first occurrence in the list |
| Frames.Select | pipeline_project.py:372 | `df[cols]` has exactly those columns in that order, and the same rows and cells |
| Extract.Selected | pipeline_project.py:301-304 | `$match` keeps exactly the journals with an end time and, given a cursor, an id past it |
| Extract.SelectedCounts | pipeline_project.py:301-304 | `$match` keeps each matching journal exactly as many times as the collection holds it, and no other |
| Extract.NoCursorNoFilter | pipeline_project.py:302-306 | a missing, empty or unparseable cursor filters on the end time only |
| Extract.Insert | pipeline_project.py:196 | insertion adds exactly one journal, as a multiset |
| Extract.SortByJournalId | pipeline_project.py:196 | the sort is a permutation of its input |
| Extract.InsertSorted | pipeline_project.py:196 | inserting into an id-sorted list keeps it sorted |
| Extract.SortedByJournalId | pipeline_project.py:196 | the `$sort` on `journal_id` leaves the ids in ascending order |
| Extract.BatchOrder | pipeline_project.py:196 | the fetched batch has the selected journals, no more and no fewer, in ascending id order |
| Extract.ProjectAll | pipeline_project.py:307 | the aggregation succeeds exactly when every projection does, with one document per journal in order |
| Extract.DocKeys | pipeline_project.py:315 | every field a document holds is one of its keys |
| Extract.ColumnsDistinct | pipeline_project.py:315 | the frame built from the documents lists no column twice |
| Extract.FieldIsColumn | pipeline_project.py:315 | every field of every document becomes a column of the frame |
| Extract.Render | pipeline_project.py:199-205 | a null cell is "" and a string cell is itself |
| Extract.FromDocs | pipeline_project.py:315 | `pd.DataFrame(docs)` is well formed, has one row per document, and each cell holds that document's field |
| Extract.FetchNothing | pipeline_project.py:309-310 | with nothing selected, `fetch` returns an empty frame and the incoming cursor unchanged |
| Extract.FetchTable | pipeline_project.py:307-315 | the fetched frame is well formed, has one row per batch journal, is `empty` exactly when it has no rows, and carries each journal's id in `journal_id` |
| Extract.BatchLastIsMax | pipeline_project.py:312-314 | the last journal of the batch has the largest selected id, past the incoming cursor when it parses |
| Extract.FetchCursor | pipeline_project.py:314-315 | the returned cursor is the `journal_id` of the last journal of the batch |
| Cleaning.CoordCell | pipeline_project.py:223-224 | a missing coordinate stays missing |
| Cleaning.TimestampsNotAssigned | pipeline_project.py:227-228 | the assignments before the timestamp step create neither timestamp column |
| Cleaning.Clean | pipeline_project.py:207-243 | the imperative `clean` returns exactly `CleanSpec` |
| Cleaning.AssignComputed | pipeline_project.py:212-225 | after the four assignments, every computed cell is cleaned and the rest untouched |
| Cleaning.AssignCountry | pipeline_project.py:212-221 | Country is assigned row by row from the address check, state and location country |
| Cleaning.AssignCoordinates | pipeline_project.py:223-224 | latitude then longitude are converted |
| Cleaning.AssignCoordinate | pipeline_project.py:223 | one coordinate column is converted and added |
| Cleaning.AssignPlace | pipeline_project.py:225 | the place is tidied from the raw place column |
| Cleaning.AddMissing | pipeline_project.py:234-236 | the loop adds each missing name as an all-"" column, in order |
| Cleaning.StatusColumns | pipeline_project.py:231-232 | adding `Status` completes the assigned columns |
| Cleaning.CleanedIsSpec | pipeline_project.py:207-243 | a table cleaned in every computed cell, with the cleaned columns, is what `clean` returns |
| Cleaning.CleanFails | pipeline_project.py:208-209 | `clean` fails (KeyError) exactly when a non-empty table lacks a timestamp column; an empty table gives an empty table with the export columns |
| Cleaning.CleanedColumnsHold | pipeline_project.py:218-236 | the cleaned columns are the input's, the assigned ones and the export columns, with no duplicates |
| Cleaning.CleanShape | pipeline_project.py:207-243 | cleaning keeps the row count, gives every row every export column, and keeps a well-formed table well formed |
| Cleaning.CleanCountry | pipeline_project.py:212-221 | Country is decided from `Address` when non-empty, else from the raw place, with State and LocCountry |
| Cleaning.CleanPlaceColumn | pipeline_project.py:225 | the cleaned place has no two adjacent whitespace characters (a lone tab or newline stays) and no space or comma at either end |
| Cleaning.CleanCopies | pipeline_project.py:230-236 | other cells are copied, so a column the input lacks (Status included) is "" |
| Cleaning.CleanCoordinates | pipeline_project.py:223-224 | a missing coordinate stays missing after cleaning |
| Store.FindFirst | pipeline_project.py:77-80 | `find_file_id` gives the first object with the name, or none exactly when no object has it |
| Store.FindFirstIs | pipeline_project.py:77-80 | the first match depends on the names alone |
| Store.Upsert | pipeline_project.py:85-86 | update-or-create replaces only the first object with the name, or appends a new one |
| Store.UpsertLookup | pipeline_project.py:85-86 | after a write the name reads as the new content and every other name as before |
| Store.UpsertIdempotent | pipeline_project.py:85-86 | writing the same content twice leaves the folder as writing it once |
| Store.ReadSheet | pipeline_project.py:95-113 | `download_excel` gives the workbook's table, or an empty table when there is none or it is not a workbook |
| Store.SaveWatermarkReadsBack | pipeline_project.py:285-298 | a saved cursor reads back as saved, and no other name changes |
| Store.ParsedIds | pipeline_project.py:268-273 | the scan keeps exactly the ids of the cells that parse |
| Store.MaxId | pipeline_project.py:275 | `max(oids)` is one of the ids and not below any of them |
| Store.WatermarkFromJson | pipeline_project.py:251-259 | a readable watermark file decides the result and nothing is written |
| Store.WatermarkMigrated | pipeline_project.py:263-283 | without it, a cursor exists exactly when the export is non-empty with a `journal_id` column holding a parseable id; the cursor is the largest such id and is saved; otherwise nothing changes |
| Store.WatermarkStable | pipeline_project.py:247-283 | reading the watermark again gives the same answer and writes nothing more |
| Store.ScanIds | pipeline_project.py:268-273 | the scan loop computes `ParsedIds` |
| Store.Drive.DownloadExcel | pipeline_project.py:95-113 | returns `ReadSheet` of the folder |
| Store.Drive.UploadExcel | pipeline_project.py:82-93 | the folder becomes `Upsert` of the table under the name |
| Store.Drive.SaveWatermark | pipeline_project.py:285-298 | an empty id changes nothing; any other id upserts `{"last_oid": id}` |
| Store.Drive.GetWatermark | pipeline_project.py:247-283 | the returned cursor and the new folder are `WatermarkSpec` of the old folder |
| Pipeline.Conform | pipeline_project.py:367-372 | the existing rows are cut to the export columns, with "" for each column they lack |
| Pipeline.MergeRows | pipeline_project.py:367-374 | the merged table has the export columns, then the existing rows (when the export was not empty) in order, then the cleaned rows in order |
| Pipeline.AddEmptyColumns | pipeline_project.py:369-371 | the loop keeps every row and cell and adds each missing column as "" |
| Pipeline.SelectConformed | pipeline_project.py:372 | selecting the export columns after that loop conforms the existing rows |
| Pipeline.Merge | pipeline_project.py:367-374 | the merge block returns exactly `MergeSpec` |
| Pipeline.MigrationWrites | pipeline_project.py:278 | `get_watermark`'s writes take the folder to the one `WatermarkSpec` describes |
| Pipeline.ReadCursor | pipeline_project.py:346-349 | the watermark is read, and the folder written, only when the lowercased mode is "inc" |
| Pipeline.Publish | pipeline_project.py:360-379 | the existing export is downloaded, merged and uploaded under the same name |
| Pipeline.PublicationFolder | pipeline_project.py:376-384 | the folder after publishing is the upload, followed by the cursor save exactly in incremental mode with a non-empty cursor |
| Pipeline.PublishRun | pipeline_project.py:374-384 | the publishing tail of `run_once` meets its specification |
| Pipeline.FinishRun | pipeline_project.py:351-384 | after `fetch`, the run meets `AfterFetch` in its outcome and in the folder |
| Pipeline.RunOnce | pipeline_project.py:346-384 | `run_once` ends with `RunSpec`'s outcome, and the folder is the old one after `RunSpec`'s writes |
| Pipeline.FetchedBatch | pipeline_project.py:309-315 | a non-empty fetched table has one row per batch journal and the batch's last `journal_id` as cursor |
| Pipeline.PublicationWrites | pipeline_project.py:360-384 | a publication writes `get_watermark`'s writes, one upload of the merged table, then the cursor save in incremental mode |
| Pipeline.PublicationMarks | pipeline_project.py:382-384 | after publishing in incremental mode, the watermark reads as the fetched cursor |
| Pipeline.PublicationFull | pipeline_project.py:382-384 | in a full run, the upload is the only write and no other name changes |
| Pipeline.RunWithoutPublishing | pipeline_project.py:351-357 | a run that does not publish writes nothing beyond `get_watermark` |
| Pipeline.AfterFetchWithoutPublishing | pipeline_project.py:351-357 | an error or empty fetch, or a failed clean, makes no upload and no cursor save |
| Pipeline.RunNoNewData | pipeline_project.py:351-355 | with nothing selected, the outcome is "no new data" and nothing is uploaded or saved |
| Pipeline.RunPublishing | pipeline_project.py:346-384 | a publishing run uploads once after `get_watermark`, then in incremental mode saves the last batch id; the upload has the export columns and existing plus batch rows |
| Pipeline.FullRun | pipeline_project.py:346-349 | a full run starts without a cursor, only uploads the export, and leaves the watermark as it was |
| Pipeline.RunAdvancesWatermark | pipeline_project.py:382-384 | after an incremental publish, the watermark is the largest selected id, and it is past a parseable starting cursor |
| Pipeline.RunFromCoveringWatermark | pipeline_project.py:301-304 | a watermark at or past every finished journal gives "no new data" and no writes |
| Pipeline.CoveredSelectsNothing | pipeline_project.py:301-304 | a cursor at or past every finished journal selects nothing |
| Pipeline.RunAgainFindsNothing | pipeline_project.py:346-384 | an incremental run repeated over the same collection right after publishing finds nothing and writes nothing |
| Pipeline.JournalIdNotExported | pipeline_project.py:39-43 | `journal_id` is not an export column |
| Pipeline.NoMigrationFromOwnExport | pipeline_project.py:267 | with no readable watermark file, an export written by `run_once` yields no cursor and no write |

## Left out

- Configuration, credentials, the connectivity checks and the Drive client (`_require`,
  `_ensure_sa_file`, `_drive_client`, pipeline_project.py:47-72 and 323-344) are left out.
  The run takes the run mode and output name as parameters and the folder as a `Drive`.
- Drive transport is left out: chunked uploads and downloads, resumable media and paging.
  - A workbook is read back exactly as it was uploaded. Excel's own conversions of cell text
    are not modelled.
  - The upload retry loop (pipeline_project.py:87-93) retries without bound. The model treats
    an upload as one atomic write and claims no bound on retries.
- Store.ReadSheet: a download of an existing export that fails is not modelled; the model
  always reads back the stored table. In the source, an `HttpError` ends the download loop
  (pipeline_project.py:107-108). `read_excel` then fails on the partial buffer and
  `download_excel` returns an empty frame (pipeline_project.py:110-113). `run_once` takes
  that for "no existing rows" (pipeline_project.py:367-374) and uploads only the new rows
  over the export with `update` (pipeline_project.py:379 and 85). In incremental mode it then
  saves the new cursor (pipeline_project.py:383-384). Every row published before is lost
  and, being behind the cursor, is never fetched again.
- Writing the workbook (`to_excel`, pipeline_project.py:378) is taken to succeed. Excel
  sheets hold at most 1,048,576 rows, and a full run re-appends every finished journal. Past
  that limit the write raises before the upload, so the run aborts with no upload and no
  cursor save. The model has no row limit.
- The read of `watermark.json` is modelled as succeeding whenever the object is a JSON
  object. In the source, an exception raised by the download call itself
  (pipeline_project.py:255-256) also falls through to the migration. That failure is not
  modelled.
- A failure of a remote call inside the migration's `try` block (pipeline_project.py:265-281)
  is not modelled.
- Store.Drive.GetWatermark and Store.Drive.SaveWatermark: the model takes the JSON read and
  write to succeed, as the client library's `MediaIoBaseDownload` and `MediaIoBaseUpload`
  would. As written, line 256 calls `.download(buf)` on the `get_media` request, while
  `download_excel` (pipeline_project.py:100-106) drives the same request through
  `MediaIoBaseDownload`. Line 292 passes an `io.BytesIO` to `MediaFileUpload`, while
  `upload_excel` (pipeline_project.py:84) passes it a file path. If those calls raise, every
  read falls back to migration, and the migration's save is swallowed by its `try`. The save
  after publishing (pipeline_project.py:383-384) then raises out of `run_once`, so the cursor
  never advances. Store.SaveWatermarkReadsBack, Store.WatermarkFromJson,
  Pipeline.PublicationMarks, Pipeline.RunAdvancesWatermark and Pipeline.RunAgainFindsNothing
  hold only under the assumption that these calls succeed.
- A `last_oid` that is not a string is not modelled: JSON `last_oid` is a string or absent.
- The Drive listing order and trashed files are outside the model. The folder is a sequence
  in listing order, and trashed objects are taken to be absent.
- The `$lookup`/`$unwind` joins are taken as done. A journal carries the user and location
  it matched, if any. The `$convert` of `uid`/`locationId` is not modelled.
- Floating point is left out:
  - `n_Duration` (`$round` of a time difference) is an opaque outcome: a value, or an error
    when `$subtract` or `$divide` rejects its operands. Which operand types fail is not
    modelled.
  - `pd.to_numeric(...).round(6)` is the parameter `coord`. A missing coordinate stays
    missing, and no rounding property is claimed.
- Rendering of non-string values is left out. `isoformat()`/`str()` of dates, numbers and
  other BSON values (`_to_str_timestamp`, pandas' `astype(str)`) is the parameter `show`.
  A null becomes "". The timestamp columns are therefore already text when `clean` reaches
  them, and their conversion step changes nothing.
- Cleaning.Clean: when `start_time` or `end_time` is missing in only some documents of a
  batch, pandas holds NaT in that datetime column and `_to_str_timestamp`
  (pipeline_project.py:199-205) writes the text "NaT". The model writes "" for every missing
  cell, so it does not produce "NaT".
- A missing cell (NaN/None) is the empty string throughout.
- ObjectIds.ParseOid: accepts exactly 24 hex digits. The bson library's `ObjectId(str)`
  decodes a 24-character string with `bytes.fromhex`, which also skips ASCII whitespace
  between digit pairs. For example, 22 hex digits followed by two spaces are accepted as an
  11-byte id whose `str()` has 22 characters. The model rejects such strings, and
  ObjectIds.ParseThenHex does not cover them. They can only come from a hand-edited
  `journal_id` cell or `last_oid` (pipeline_project.py:271 and 304). The bson library is not
  part of this model.
- Text.Upper and Text.Lower map ASCII letters only. Python's full Unicode case mapping is
  not modelled, so `decide_country` and the "inc" mode test are exact for ASCII input.
- Extract.DocKeys: its contract states only that every field a document holds is one of
  its keys, not that it has no other keys. Extract.FromDocs states the cell values exactly.
- The pipeline's lack of duplicate rows is not claimed. A full run appends every finished
  journal to the existing export again. Crash recovery between the upload and the cursor
  save is not modelled either.
- `pipeline_config.py`, `send_email.py` and `check_duration_field.py` are not part of this
  model.
