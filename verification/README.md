# AI marketing content pipeline — a Dafny model

The system has two small programs around three cloud services.

- The ingestion function (`content-generator-function/main.py`) runs when a CSV file
  is uploaded to a storage bucket. It reads the file and skips the header line. It keeps
  every data line that has at least two fields whose first two fields, once stripped,
  are not both empty (so `,blue` is kept). For each kept row it asks a text model for marketing copy, and
  asks an image model for a picture unless the copy looks like a failure. It uploads
  the picture and assembles one warehouse record per row, then inserts the records in
  one call. A file that cannot be read or iterated has its records dropped, and it is
  moved to a "failed" bucket when one is configured and the copy goes through.
- The gallery page (`frontend-app/app.py`) queries that table for the 20 newest rows
  whose image URL is non-null and does not start with `Error`. It lays them out in
  three columns, row `i` in column `i % 3`.

The model is functional. The services, the clock and the CSV tokeniser are parameters:
- `Ingest.Services` answers the k-th row that reaches generation.
- `Ingest.Fetch` is the download and reader outcome.
- `Gallery.QueryReply` is the warehouse's answer.

Every request the ingestion function would make is recorded, in order, as an
`Ingest.Call` in a trace. So "no image request", "no insert" and "no move" are
statements about that trace.

Files:
- `optional.dfy`: `Option`, and Python truthiness and f-string rendering of optional strings.
- `strings.dfy`: `strip`, ASCII `lower`, one-character `replace`, `in`, the `LIKE 'p%'` prefix test, and `str(n)`.
- `ingest.dfy`: the ingestion function.
- `gallery.dfy`: the gallery page.
- `flow.dfy`: ingested records read back by the gallery's filter.

Two consequences of the code worth knowing:
- The gallery's filter (app.py:25-26) also admits rows whose URL field holds
  `Skipped: Text generation failed.`. So every row whose text request failed passes the
  filter, and it is shown when it is among the 20 newest displayable rows
  (`Flow.SkippedMarkerShown`, `Flow.FailedTextReachesGallery`,
  `Flow.FailedTextSelectedUnlessCrowdedOut`).
- A readable file with no qualifying row makes no warehouse call (main.py:164;
  `Ingest.EmptyWellFormedFileIsLeftAlone`).

## Model

| member | source | states |
|---|---|---|
| `Strings.Trim` | content-generator-function/main.py:92-93 | the stripped string is empty iff every character is whitespace, otherwise it starts and ends with non-whitespace; it is the stretch of the original that begins right after its leading whitespace, and everything after that stretch is whitespace |
| `Strings.TrimIdempotent` | content-generator-function/main.py:92-93 | stripping an already stripped field changes nothing |
| `Strings.ContainsIffOccurs` | content-generator-function/main.py:111 | the left-to-right `sub in s` test holds exactly when `sub` occurs at some position of `s` |
| `Strings.LowerAscii` | content-generator-function/main.py:129 | lower-casing keeps the length, leaves no ASCII upper-case letter, turns each upper-case letter into the lower-case letter 32 code points above it, and keeps every other character |
| `Strings.ReplaceChar` | content-generator-function/main.py:129 | replacing one character by another keeps the length, turns every occurrence into the replacement (so none is left when the two differ), and keeps every other character |
| `Strings.NatToString` | content-generator-function/main.py:129 | `str(n)` is a non-empty string of decimal digits with no leading zero |
| `Strings.DecimalRoundTrip` | content-generator-function/main.py:129 | reading back the digits of `str(n)` gives `n` |
| `Strings.NatToStringInjective` | content-generator-function/main.py:129 | distinct timestamps give distinct decimal suffixes |
| `Ingest.KeptRows` | content-generator-function/main.py:87-96 | the filter keeps at most as many rows as there are data lines |
| `Ingest.KeptRowsAppend` | content-generator-function/main.py:87-96 | the filter decides each line on its own: filtering a concatenation concatenates the results, so order is kept |
| `Ingest.NonQualifyingLineDropped` | content-generator-function/main.py:88-96 | a line with fewer than two fields, or with both trimmed fields empty, contributes nothing wherever it stands |
| `Ingest.QualifyingLineKept` | content-generator-function/main.py:88-96 | any other line contributes exactly one product, its trimmed first two fields, in its place |
| `Ingest.ExtraColumnsIgnored` | content-generator-function/main.py:88-93 | lines that agree on their first two fields and on having at least two give the same records and the same requests |
| `Ingest.ImageStepOf` | content-generator-function/main.py:113-133 | one image request with the prompt from the name and the first 100 characters of the text, then an upload of the first part's bytes under the derived name exactly when that part carries bytes |
| `Ingest.ImageStepUrl` | content-generator-function/main.py:126-142 | the URL field is the public URL after a successful upload, `Error: No image returned.` for absent or empty parts, and `Error: Image generation failed.` for every exception, a failed upload included |
| `Ingest.EnrichRow` | content-generator-function/main.py:98-153 | the record carries the trimmed name and keywords, the source locator and the assembly time; the first request is the text request with the fixed prompt and no other text request follows; content is the stripped reply or the failure marker; when the guard is shut the URL field is the skip marker and nothing else is asked |
| `Ingest.TextFailedMarkerBlocksImage` | content-generator-function/main.py:108-111 | the text-failure marker itself contains `Error:`, so the guard always rejects it |
| `Ingest.GuardIsSourceGuard` | content-generator-function/main.py:105-111 | the model's guard on the text reply agrees with the source's test on the stored text |
| `Ingest.TextFailureSkipsImage` | content-generator-function/main.py:106-144 | a failed text request stores `Error: Text generation failed.` and `Skipped: Text generation failed.` and makes no image request |
| `Ingest.ImageRequestIff` | content-generator-function/main.py:111-144 | the image model is asked iff the stored text is non-empty and has no `Error:` substring; otherwise the URL field is the skip marker |
| `Ingest.BlankTextSkipsImage` | content-generator-function/main.py:105-144 | an all-whitespace reply is stored as empty content, skips the image step and gets the skip marker |
| `Ingest.GuardOpenRunsImageStep` | content-generator-function/main.py:111-142 | with the guard open, the row's URL and remaining requests are the image step's, and an upload happens iff the first part carries bytes |
| `Ingest.BlobNameShape` | content-generator-function/main.py:129 | the object name is the name with spaces as `_` and lower-cased, then `_`, the seconds in decimal (readable back), then `.png`; it has no spaces or upper-case ASCII letters |
| `Ingest.ProcessLines` | content-generator-function/main.py:87-153 | the loop yields one record per qualifying line and makes only generation and upload requests |
| `Ingest.RowLoopNeitherMovesNorInserts` | content-generator-function/main.py:87-153 | the row loop never moves the file and never inserts |
| `Ingest.RecordsFollowKeptRows` | content-generator-function/main.py:87-153 | the loop's records are exactly the qualifying lines' products, in order, each enriched with the replies for its ordinal |
| `Ingest.RecordFollowsKeptRow` | content-generator-function/main.py:87-153 | record j is the j-th qualifying product enriched with the (kept + j)-th replies |
| `Ingest.OneTextRequestPerRecord` | content-generator-function/main.py:102-104 | the loop sends exactly as many text requests as it builds records |
| `Ingest.OneTextRequestPerRow` | content-generator-function/main.py:102-104 | a row's trace with one leading text request and no other counts one text request |
| `Ingest.MoveToFailed` | content-generator-function/main.py:57-72 | without a failed bucket nothing is done; otherwise the file is copied there under its own name, and deleted only after the copy went through; a move never inserts |
| `Ingest.Invoke` | content-generator-function/main.py:38-173 | the run is unconfigured iff the API key is missing or empty, and then makes no request; otherwise it starts with the download; a quarantined run never inserts; an inserted run has records, ends with the insert into `project.dataset.table`, makes no other insert and never moves the file |
| `Ingest.AfterDownload` | content-generator-function/main.py:76-167 | after the download, a quarantined run never inserts, and an inserted run has records, ends with its only insert and never moves the file |
| `Ingest.MissingApiKeyDoesNothing` | content-generator-function/main.py:38-40 | a missing API key ends the run before any download, move or insert, whatever the file and the services |
| `Ingest.UnreadableFileQuarantined` | content-generator-function/main.py:76-85 | a failed download, or a file with no header line, is downloaded-then-moved with nothing inserted |
| `Ingest.IterationErrorDiscardsRecords` | content-generator-function/main.py:158-161 | an error escaping the row loop quarantines the file and drops all records built so far, with no insert, after the row requests already made |
| `Ingest.EmptyWellFormedFileIsLeftAlone` | content-generator-function/main.py:155-164 | a readable file with no qualifying line is neither moved nor inserted |
| `Ingest.WellFormedFileInserted` | content-generator-function/main.py:146-167 | a readable file with a qualifying line ends in one insert of exactly its records, in order, each with `source_file` `gs://bucket/name`; no other insert is made and the file is not moved |
| `Gallery.Displayables` | frontend-app/app.py:25-26 | the WHERE clause keeps every row with a non-null URL not starting with `Error`, as often as it occurs, and no other row |
| `Gallery.InsertByRecency` | frontend-app/app.py:27 | inserting into a newest-first sequence keeps it newest first and adds exactly the one row |
| `Gallery.SortByRecency` | frontend-app/app.py:27 | ORDER BY `processed_at` DESC yields a newest-first permutation of its input |
| `Gallery.Selected` | frontend-app/app.py:22-29 | the query returns min(20, number of displayable rows) rows, all displayable, newest first, drawn from the displayable rows |
| `Gallery.SelectedAreNewest` | frontend-app/app.py:27-28 | a displayable row is left out only when 20 rows are selected, and it is no newer than any of them |
| `Gallery.QueryResultShowsImages` | frontend-app/app.py:25-26 | every result carries a non-null URL not starting with `Error` |
| `Gallery.PictureIffNonEmptyUrl` | frontend-app/app.py:39-40 | a selected result draws a picture iff its URL is non-empty, and the picture is that URL |
| `Gallery.ColumnOf` | frontend-app/app.py:37 | the column index is always 0, 1 or 2 |
| `Gallery.Layout` | frontend-app/app.py:34-37 | the grid always has three columns |
| `Gallery.LayoutColumns` | frontend-app/app.py:34-37 | column c holds results c, c + 3, c + 6, … in order, and nothing else |
| `Gallery.LayoutPartitions` | frontend-app/app.py:34-37 | the three columns together hold exactly as many tiles as there are results |
| `Gallery.LayoutPlacesEachCard` | frontend-app/app.py:36-37 | result i sits in column i % 3 at row i / 3 |
| `Gallery.Render` | frontend-app/app.py:13-48 | the caption is always shown; the configuration error appears iff a table value is missing or empty, and then no query is issued; otherwise the query names `project.dataset.table`; the query error appears iff the query raises; a grid has three columns |
| `Gallery.NoQueryWithoutConfig` | frontend-app/app.py:15-16 | with a missing table value the page is the same error whatever the warehouse would answer |
| `Gallery.QueryFailureShowsOneMessage` | frontend-app/app.py:47-48 | a raising query shows one error carrying the exception text and no grid |
| `Gallery.GridShowsQueryResult` | frontend-app/app.py:22-44 | a successful render shows the selected rows, at most 20, split over the columns; result i is in column i % 3 at row i / 3, with a usable URL |
| `Flow.ErrorMarkersHidden` | frontend-app/app.py:25-26 | records with either image error marker are dropped by the gallery's filter |
| `Flow.SkippedMarkerShown` | frontend-app/app.py:25-26 | records with the skip marker pass the gallery's filter |
| `Flow.DisplayableIff` | content-generator-function/main.py:111-144 | an enriched record passes the gallery's filter iff its image step was skipped, or the first part carried bytes, the upload went through and the public URL does not start with `Error` |
| `Flow.FailedTextReachesGallery` | content-generator-function/main.py:106-144 | a row whose text request failed passes the gallery's filter (app.py:25-26), and its tile has the text-failure marker as copy and the skip marker as picture URL |
| `Flow.FailedTextSelectedUnlessCrowdedOut` | frontend-app/app.py:22-29 | a stored failed-text row is among the query's results unless 20 rows are selected and none of them is older than it |

## Left out

- The storage, warehouse and generative-model clients are not modelled. Their answers are oracle values, and their requests are trace entries.
- Client construction, model selection, and `genai.configure` (main.py:43-49) are not modelled. Nothing in the model depends on them.
- The event's `bucket` and `name` keys are always present in the model. A missing key raises into the outermost handler (main.py:175-176), and that path is not modelled.
- Other unexpected exceptions that reach the outermost handler are not modelled either.
- `csv.reader` tokenisation (quoting, escapes, line splitting) is left out. The file is a sequence of already split lines, and the reader may raise after yielding them.
- `str.strip` and `str.lower` are modelled on ASCII only: every ASCII character `str.isspace` accepts is whitespace here, but non-ASCII whitespace (U+0085, U+00A0 and the rest) and non-ASCII case mappings are left out.
- The clock is left out. `datetime.utcnow()` gives per-row parameters: the seconds in the blob name and the ISO `processed_at` string. In the gallery, `processed_at` is an integer key with the warehouse's order.
- Ingest.ImageStepOf: the upload's outcome is an oracle, so the model does not tie a missing images-bucket setting to a failed upload. It only records the bucket setting in the upload request.
- Ingest.Invoke: whether the insert call raises or reports row errors makes no difference to the trace or the outcome. Only logging differs, and partial row rejection is the warehouse's behaviour.
- Ingest.MoveToFailed: when the delete raises after a successful copy, the outcome is the same as when it succeeds. Only logging differs.
- Logging and the returned `"OK"` are not modelled.
- Gallery.SelectedAreNewest: rows with equal `processed_at` may come back in any order. So the contract states which rows are selected (the newest ones), not an order among ties.
- Gallery.Render: an exception raised while results are drawn would show the cards drawn so far and then the error. Only an exception from the query itself is modelled.
- Null text columns are not modelled: the displayed text columns are never null here. The ingestion function always writes strings, so concatenating `**Keywords:** ` with a null value cannot happen.
- Streamlit layout calls are not modelled: title, page configuration, expanders and dividers. What each tile shows is modelled.
