# Product dashboard back ends, modelled in Dafny

The product dashboard takes a spreadsheet of item names and looks each item up on a
shopping site. It collects the product's title, price, image, description, the
"discontinued" flag and the labelled rows of the product-details table, then writes
one result line per item to an output sheet. Two back ends do this:

- a Go service (`backend/main.go`), built on a headless browser;
- a Python service (`backend/main.py`), built on a browser driver.

Each back end has four parts:

- a product lookup that retries a failed browser session after 5, 10 and 15 seconds;
- a parser that turns the detail table into record fields;
- a background runner that walks the sheet in windows of five rows, records progress
  in a job table and finally marks the job completed or failed;
- HTTP handlers to upload a sheet, poll a job's status, download its results and
  list all jobs.

This project models those parts. What the browser sees on the site is given as an
oracle: the outcome of attempt `n` for an item. Reading and writing sheets are given
as their outcomes. The random sleeps become a log of pauses. Clock readings are whole
seconds supplied by the caller.

Modules:

- `Wrappers`: the `Option` and `Result` types.
- `Text`: trimming, ASCII lower-casing, splitting, cutting at the first colon,
  substring tests and decimal digits.
- `Labels`: the label classification shared by both parsers.
- `Pacing`: the five-row windows and the pause schedule.
- `Ratio`: the progress percentage.
- `Retry`: the retry waits.
- `Clock`: the clock-text helpers.
- `GoExtract`, `GoLookup`, `GoJobs`, `GoBatch`: the Go service.
- `PyExtract`, `PyLookup`, `PyJobs`, `PyBatch`: the Python service.

The job tables are classes whose methods update the table in place. The row loops,
the header search, the detail-line loop and the retry loop are methods with loops.
Each is proved against a specification function, and the properties are proved about
those functions.

## Model

| member | source | states |
|---|---|---|
| Text.TrimSpec | backend/main.go:297-300 | for Go's and Python's whitespace alike, a trimmed text is empty or starts and ends with a non-space, and only whitespace was removed from either end |
| Text.StripAgreesWithTrim | backend/main.py:162 | Python's `strip()` and Go's `TrimSpace` give the same text when it holds none of the separators U+001C..U+001F |
| Text.SeparatorStripped | backend/main.py:162 | a leading U+001C..U+001F separator is removed by Python's `strip()` and kept by Go's `TrimSpace` |
| Text.TrimIdempotent | backend/main.go:316 | trimming a trimmed text changes nothing, with either whitespace set |
| Text.ToLower | backend/main.go:323 | lower-casing keeps the length and maps each character to its lower-case form |
| Text.ToLowerIdempotent | backend/main.py:206 | lower-casing a lower-cased label changes nothing |
| Text.Split | backend/main.go:319 | splitting at newlines gives at least one piece, no piece holds a newline, and re-joining the pieces gives the text back |
| Text.CutColon | backend/main.go:321-322 | there is no cut exactly when the line has no colon; otherwise the line is the part before the first colon, a colon, then the rest with any later colons |
| Text.CutColonInverse | backend/main.go:321-324 | cutting `k:v` with a colon-free `k` gives back `k` and `v` |
| Text.RemoveAllAbsent | backend/main.py:175 | removing "\n." from a price that does not contain it leaves the price unchanged |
| Text.FirstIndex | backend/main.go:321 | the position of the first occurrence of a character, or the length when it does not occur |
| Text.Decimal | backend/main.py:394 | the decimal text of a number is non-empty and all digits |
| Text.DecimalRoundTrip | backend/main.py:394 | the decimal text of a number reads back as that number |
| Labels.Rank | backend/main.go:326-347 | each field has a row in the case table, at its position |
| Labels.ClassifyFirstMatchWins | backend/main.go:326-347 | a label lands in a field exactly when that field's test matches and no earlier row's test does; it lands nowhere exactly when no test matches |
| Labels.NoEarlierMatch | backend/main.go:326-347 | no row before the one a label lands in matches that label |
| Labels.ClassifyNone | backend/main.go:326-347 | a label is ignored exactly when no row's test matches it |
| Labels.ClassifyPyAgreesWithGo | backend/main.py:209-228 | the Python `elif` chain, with its extra "item weight" test, classifies every label as the Go `switch` does |
| Pacing.WindowsShape | backend/main.go:397-404 | the windows cover the rows in order, each holds 1 to 5 rows, all but the last hold exactly 5, and there are `(n-1)/5+1` of them |
| Pacing.RunWindowsAreWindows | backend/main.py:259-260 | the windows the runners visit, rows `i` up to `min(i+5, n)` for `i = 0, 5, 10, ...` below `n`, are exactly `Windows` of the rows |
| Pacing.TwelveRowsMakeThreeWindows | backend/main.go:397-404 | twelve rows make windows of rows 0-4, 5-9 and 10-11 |
| Pacing.LookedRowsExact | backend/main.go:424-429 | the looked-up rows of a range are exactly its rows with a name, strictly increasing |
| Pacing.ItemPausesContent | backend/main.go:465-469 | a window's pauses are item pauses, one per looked-up row of the window |
| Pacing.PauseLogAdvance | backend/main.go:397-476 | a window's item pauses plus its batch pause extend the logged prefix of the whole schedule |
| Pacing.PauseLogBatches | backend/main.go:472-476 | from any window on, the schedule holds one batch pause fewer than there are windows left |
| Pacing.PauseLogItems | backend/main.go:465-469 | from any window on, the schedule holds an item pause for exactly the looked-up rows, in row order |
| Pacing.PauseLogSummary | backend/main.go:397-476 | the whole schedule has one batch pause fewer than there are windows, and one item pause per looked-up row in row order |
| Pacing.TwelveRowsTwoBatchPauses | backend/main.go:472-476 | twelve rows in windows of five give exactly two batch pauses |
| Ratio.ProgressBounds | backend/main.go:741-743 | the percentage is 0 while the total is not positive, between 0 and 100 while the counts are in range, and 100 when every row is processed |
| Retry.Delays | backend/main.go:286-290 | the n-th wait before a retry is `(n+1)*5` seconds |
| Clock.Pad2Value | backend/main.go:759 | a `%02d` field reads back as its number and has exactly two digits below 100 |
| Clock.DurationParts | backend/main.go:754-757 | hours, minutes and seconds add back up to the total |
| GoExtract.WithSpec | backend/main.go:326-347 | assigning a detail field sets that field only |
| GoExtract.ApplyLineEffect | backend/main.go:320-348 | one line sets the field its label classifies into to its trimmed value and leaves every other field alone |
| GoExtract.ExtractProductDetails | backend/main.go:315-351 | the record after the loop is the effect of the text's lines in order on the record with the trimmed text in ProductDetails |
| GoExtract.ApplyLinesKeepsOtherFields | backend/main.go:319-349 | the detail lines never change title, price, image, URL, description, discontinued, UNSPSC code, ProductDetails or Error |
| GoExtract.ApplyLinesUnmatched | backend/main.go:319-349 | a detail field no line classifies into keeps its value |
| GoExtract.ApplyLinesLastWins | backend/main.go:319-349 | when several lines classify into a field, the last one's value is kept |
| GoExtract.LabelledLine | backend/main.go:321-324 | a line `label:value` with a colon-free label sets the field of its trimmed, lower-cased label to its trimmed value |
| GoExtract.CollectedInfoFields | backend/main.go:296-309 | a successful run's record has the trimmed title, price and description, the image and URL as collected, "Yes"/"No" for discontinued, the trimmed details, and no error |
| GoExtract.FromCollected | backend/main.go:296-311 | the record built step by step is the one of the collected values |
| GoLookup.FinalAttempt | backend/main.go:280-293 | the returned attempt is the first successful one or the last allowed one, and every attempt before it failed |
| GoLookup.GetProductInfo | backend/main.go:130-312 | the loop returns the final attempt's record, starts at most `maxRetries + 1` runs, and waits `Delays` before the retries |
| GoLookup.AlwaysFailing | backend/main.go:279-293 | a lookup that always fails makes 4 attempts, waits 5, 10 and 15 seconds, and returns only the last error |
| GoLookup.FirstAttemptSucceeds | backend/main.go:278-311 | a lookup that succeeds at once does not retry and returns the run's record with no error |
| GoJobs.FormatDurationRoundTrip | backend/main.go:753-760 | `HH:MM:SS` text has colons in place and reads back as its number of seconds |
| GoJobs.FileTypeOfAccepts | backend/main.go:772-781 | a file is accepted as xlsx or csv exactly when its lower-cased name ends with `.xlsx` or `.csv`, and refused otherwise |
| GoJobs.UpperCaseSuffixAccepted | backend/main.go:774-777 | an upper-case `.CSV` suffix is accepted |
| GoJobs.StatusUpdate | backend/main.go:697-706 | status and counts are replaced; an empty output path or error message keeps the old one; start time and file name are kept |
| GoJobs.Ext | backend/main.go:868 | the extension is empty exactly when the last path element has no dot; otherwise it is the suffix of the path from the last dot, with no further dot and no slash |
| GoJobs.JobRegistry.Create | backend/main.go:802-810 | the new job is processing with zero counts, the given start time and file name, and nothing else changes |
| GoJobs.JobRegistry.UpdateJobStatus | backend/main.go:693-708 | an unknown id changes nothing; a known id gets the status update and is logged |
| GoJobs.JobRegistry.UpdateJobProgress | backend/main.go:710-717 | only the processed count of a known job changes |
| GoJobs.JobRegistry.UpdateJobTotalCount | backend/main.go:719-726 | only the total of a known job changes |
| GoJobs.JobRegistry.GetJobInfo | backend/main.go:728-751 | there is a view exactly when the job exists; it copies the job, its percentage is 0 while the total is not positive, its elapsed seconds are `now` minus the start time, or 0 when the start lies after `now`, and its elapsed text reads back as those seconds |
| GoJobs.JobRegistry.ListJobs | backend/main.go:874-896 | one summary per job, with its status, name, counts, percentage and start time |
| GoJobs.JobRegistry.Download | backend/main.go:835-872 | 404 exactly for an unknown id; 400 with the job's current status and live counts exactly while not completed; the file exactly when completed with an existing non-empty output path, offered as `amazon_results_<id>` plus the output's extension |
| GoJobs.JobRegistry.UploadFile | backend/main.go:764-821 | an unsupported name is refused and creates no job; otherwise a processing job is registered under the new id |
| GoBatch.ColumnIndex | backend/main.go:682-689 | the index of the first header equal to the name up to letter case, or -1 when no header matches |
| GoBatch.FindColumnIndex | backend/main.go:682-689 | the header loop returns the first case-insensitive match or -1 |
| GoBatch.ResultsOfLookedRows | backend/main.go:407-469 | the result lines are exactly the looked-up rows, in order, each with its name, SrNo and Item Code and the lookup of its name |
| GoBatch.NoNameColumnNoResults | backend/main.go:419-429 | without an Item Name column there are no result lines |
| GoBatch.Counts | backend/main.go:427 | the processed counts reported are 1, 2, ..., n |
| GoBatch.StatusUpdateAfterRunning | backend/main.go:490-497 | the final status update leaves the same record whatever the counting phase wrote before it |
| GoBatch.RowLine | backend/main.go:409-457 | a row without a name is skipped; otherwise its line carries its own columns and its lookup |
| GoBatch.ProcessRow | backend/main.go:407-469 | one row adds its line and item pause when named, and reports its count |
| GoBatch.ProcessWindow | backend/main.go:407-469 | one window adds its rows' lines and item pauses, and reports every row's count |
| GoBatch.ProcessBatch | backend/main.go:397-476 | one window, then a batch pause when rows remain; the log stays a prefix of the whole schedule |
| GoBatch.ProcessRows | backend/main.go:394-477 | the windows visited are `Windows(rows, 5)`, every row is processed, the results are `ResultsOf` all rows, and the pauses are the whole schedule |
| GoBatch.ProcessFile | backend/main.go:354-499 | a read failure marks the job failed with no results; otherwise the results, pauses and counts are as specified, and the job ends completed with the output path or failed with the save error; on every path the uploaded file is removed |
| PyExtract.WithSpec | backend/main.py:209-228 | assigning a detail key sets that key only |
| PyExtract.ExtractProductDetails | backend/main.py:138-244 | the step-by-step extraction equals `Extract`: the fields' fallback chains, then the table rows, then the discontinued flag |
| PyExtract.ReadTables | backend/main.py:198-230 | the nested row loop has the effect of the tables' rows in order |
| PyExtract.ExtractFields | backend/main.py:138-244 | extraction fails exactly when there is neither an offscreen price nor a whole-price element; on success it holds the title, price, image, description and discontinued values of their fallback chains, the URL, and an empty UNSPSC code |
| PyExtract.TitleFallbackOnlyWhenBlank | backend/main.py:160-166 | `#title` is read only when `#productTitle` exists with blank text; a missing `#productTitle` gives "NA" |
| PyExtract.DiscontinuedCases | backend/main.py:235-242 | "Yes" exactly when the readable source holds one of the two phrases; "NA" exactly when the source cannot be read |
| PyExtract.ApplyRowsFrame | backend/main.py:198-230 | table rows write detail keys only |
| PyExtract.ApplyTablesFrame | backend/main.py:198-230 | all the tables together write detail keys only |
| PyExtract.CompleteIsFilter | backend/main.py:202-229 | the rows the loop uses are exactly the rows with both a th and a td, in their order: one row is kept exactly when complete, and the selection distributes over concatenation |
| PyExtract.IncompleteRowsSkipped | backend/main.py:202-229 | a row lacking its th or td is skipped without affecting the others |
| PyExtract.ApplyRowsUnmatched | backend/main.py:202-229 | a detail key no complete row classifies into keeps its value |
| PyExtract.ApplyRowsLastWins | backend/main.py:202-229 | when several rows classify into a key, the last row's trimmed td is kept |
| PyLookup.FinalAttempt | backend/main.py:113-129 | the returned attempt is the first one that is not a session failure, or the last allowed one |
| PyLookup.GetProductInfo | backend/main.py:42-136 | the loop returns the final attempt's dict, starts at most `max_retries + 1` sessions, and waits `Delays` before the retries |
| PyLookup.AlwaysSessionFailing | backend/main.py:117-129 | a lookup whose sessions always fail makes 4 attempts, waits 5, 10 and 15 seconds, and returns only the last session error |
| PyLookup.ResultFailureNotRetried | backend/main.py:94-115 | a failure to open the first search result is returned at once, without a retry |
| PyLookup.ProductExactlyWhenExtracted | backend/main.py:108-136 | the reply is a product exactly when the final attempt opened a page whose extraction succeeds, and it is that extraction's dict |
| PyLookup.MissingPriceIsResultError | backend/main.py:168-177 | a product page with no price at all yields the results error "list index out of range" |
| PyJobs.ClockTextRoundTrip | backend/main.py:394 | the `H:MM:SS` text of a number of seconds reads back as that number |
| PyJobs.TimedeltaTextClock | backend/main.py:394 | the timedelta text ends with the clock time of the seconds past whole days, which reads back as those seconds; under a day it is only that clock time |
| PyJobs.SummaryOf | backend/main.py:426-434 | an entry of the job list copies the job's status, name, counts and start time; its percentage is 0 while the total is not positive, within 0..100 while the counts are in range, and 100 once every row is processed |
| PyJobs.ActiveJobs.constructor | backend/main.py:30 | the job table starts empty |
| PyJobs.ActiveJobs.Upload | backend/main.py:351-370 | the job is registered as processing with zero counts and the start time; a new id goes to the end of the order; the reply carries the id and the message |
| PyJobs.ActiveJobs.SetTotal | backend/main.py:256 | only the job's total changes |
| PyJobs.ActiveJobs.SetProcessed | backend/main.py:301 | only the job's processed count changes |
| PyJobs.ActiveJobs.SetCompleted | backend/main.py:320-321 | the job becomes completed with its output file |
| PyJobs.ActiveJobs.SetFailed | backend/main.py:327-328 | the job becomes failed with its error |
| PyJobs.ActiveJobs.Status | backend/main.py:376-396 | 404 exactly for an unknown id; otherwise a copy of the job with its percentage (0 while the total is 0, within 0..100 while counts are in range) and its elapsed time, whose text reads back as the seconds under a day |
| PyJobs.ActiveJobs.Download | backend/main.py:398-421 | 404 exactly for an unknown id; 400 with the status text and counts exactly while not completed; the file, named `amazon_results_<id>.xlsx`, exactly when completed with an existing non-empty output file |
| PyJobs.ActiveJobs.DownloadAgreesWithStatus | backend/main.py:384-412 | a refused download reports the same counts and percentage as the status endpoint |
| PyJobs.ActiveJobs.ListJobs | backend/main.py:423-436 | one entry per job, in insertion order, each job exactly once |
| PyBatch.RowResult | backend/main.py:276-296 | a line carries the item name; an error reply gives empty columns and the error, a product gives every one of its seventeen keys in its column and an empty error |
| PyBatch.ResultsOfLookedRows | backend/main.py:265-298 | the result lines are exactly the looked-up rows, in order, each with its name and its lookup |
| PyBatch.ProcessedAfterLastNamed | backend/main.py:266-301 | "processed" keeps its old value until a named row is looked up, and then holds the position after the last named row |
| PyBatch.ReportedRows | backend/main.py:299-301 | the values written to "processed" are the looked-up rows counted from one, and the job holds the last of them |
| PyBatch.TrailingUnnamedRowsUncounted | backend/main.py:266-270 | a sheet with a named row that ends in unnamed rows finishes with "processed" below "total" |
| PyBatch.ProcessRow | backend/main.py:265-308 | one row adds its line and item pause and writes its count when named |
| PyBatch.ProcessWindow | backend/main.py:265-308 | one window adds its named rows' lines, pauses and counts |
| PyBatch.ProcessBatch | backend/main.py:259-314 | one window, then a batch pause when rows remain; the log stays a prefix of the whole schedule |
| PyBatch.ProcessRows | backend/main.py:259-314 | the windows visited are `Windows(cells, 5)`, all rows give `ResultsOf` all rows, the whole pause schedule, and the job's running counts |
| PyBatch.ProcessExcel | backend/main.py:246-335 | a read failure marks the job failed with its error; otherwise the results, pauses and written counts are as specified, and the job ends completed with `output_<id>.xlsx` or failed with the save error, total set and the order kept; on every path the temporary file is unlinked |
| PyBatch.Overwrite | backend/main.py:320-328 | the last write to a job's dict replaces what the earlier writes left there |
| PyBatch.ProcessExcelPauses | backend/main.py:305-314 | the runner pauses after each looked-up row, in row order, and takes one batch pause fewer than there are windows |

## Left out

- Browser sessions: what a session does on the site, its timeouts and its keystroke
  delays are not modelled. Each attempt's outcome is an oracle, and the page a Python
  session reaches is given as the elements it finds.
- Sleeps: every random sleep becomes an entry of the pause log, or a wait returned by
  the lookup. Random durations and wall-clock time are not modelled.
- Sheets: reading and writing Excel and CSV files are given as their outcomes. The
  cell values of a read sheet are strings, so pandas NaN cells, which are truthy, are
  not modelled.
- HTTP: requests, responses, multipart parsing and uuid generation are outside the
  model. The new job id is a parameter.
- Temporary files: the 500 replies when a temporary file cannot be written, and Go's
  400 "Error getting file", are not modelled.
- Concurrency: the background goroutine and task run as one sequential call. The Go
  mutex makes each registry method atomic, and the model treats each one as one step.
- Numbers: integers are unbounded; Go's `int` and `time.Duration` overflow are not
  modelled. Floats are exact `real`s.
- PyJobs.ActiveJobs.Status: the percentage is exact; Python's rounding to one decimal
  is not modelled.
- PyJobs.ActiveJobs.Download: the percentage is exact; Python's rounding to one
  decimal is not modelled.
- Clocks: readings are whole seconds. The ISO text of the Python start time is not
  modelled.
- GoJobs.JobRegistry.GetJobInfo: elapsed time is clamped at 0 when the start lies
  after `now`.
- Go `filepath.Join` path cleaning: output paths are plain concatenations.
- Go `os.Stat` errors: errors other than a missing file count as "file exists", as
  the handler does.
- Go file types: a file type other than xlsx or csv cannot reach the runner, since the
  model's type has only those two.
- Python `get_attribute("src")` returning `None` is not modelled. The image is a
  string.
- Python: an exception escaping the table block at line 232 is not modelled, and
  neither is the repeated `driver.quit()` on the retry path.
- Text: lower-casing covers ASCII letters only. Trimming uses the full whitespace sets of Go and Python.
- Python extraction dict: modelled as a record with one field per key. The "error"
  key exists only in the error reply.
- Repeated item names: a lookup is a function of the item name, so two rows with the
  same name get the same result. In the source each row starts its own browser
  session, and the two sessions may end differently.
- Unlinking failures: a failed removal of the uploaded file is ignored (Go) or only
  reported (Python), so the runners record the removal whatever its result.
- Lookups in the runners: the runners take the lookup as a parameter. With the
  browser behaving as oracle `run`, it is `Lookups(run)`, which `GetProductInfo`
  computes.
