/**
  The Go job runner `processFile`: it reads the uploaded table, looks up every row with
  a non-empty item name in windows of five rows, records the progress of every row in
  the job table, and finally writes the results and marks the job completed or failed.
  Reading and writing the file are given as their outcomes; the lookups go through the
  oracle of `GoLookup`; the random sleeps become the pause log of `Pacing`.
*/
module GoBatch {

  import opened Wrappers
  import opened Text
  import opened Pacing
  import opened GoExtract
  import opened GoLookup
  import opened GoJobs

  /** Go `ResultRow`: one line of the output file. */
  datatype ResultRow = ResultRow(
    SrNo: string,
    ItemCode: string,
    ItemName: string,
    Title: string,
    CompositionAmazon: string,
    Price: string,
    ProductDetails: string,
    ImageURL: string,
    AmazonURL: string,
    IsDiscontinued: string,
    UnspscCode: string,
    ProductDimensions: string,
    ItemWeight: string,
    Manufacturer: string,
    ASIN: string,
    ModelNumber: string,
    CountryOfOrigin: string,
    DateFirstAvailable: string,
    IncludedComponents: string,
    GenericName: string,
    Error: string)

  /** What a reader returns: the header row and the data rows. */
  datatype Table = Table(headers: seq<string>, rows: seq<seq<string>>)

  /** The window size of the runner. */
  const BatchSize: nat := 5

  /**
    Go `findColumnIndex` as a specification: the first header equal to `name` up to
    letter case, or -1 when there is none.
  */
  function ColumnIndex(headers: seq<string>, name: string): (r: int)
    ensures -1 <= r < |headers|
    ensures r >= 0 ==> EqualFold(headers[r], name)
    ensures forall j :: 0 <= j < |headers| && (r < 0 || j < r) ==> !EqualFold(headers[j], name)
  {
    if headers == [] then -1
    else if EqualFold(headers[0], name) then 0
    else
      var rest := ColumnIndex(headers[1..], name);
      if rest < 0 then -1 else rest + 1
  }

  /** Go `findColumnIndex`: the loop over the headers. */
  method FindColumnIndex(headers: seq<string>, name: string) returns (r: int)
    ensures r == ColumnIndex(headers, name)
  {
    for i := 0 to |headers|
      invariant forall j :: 0 <= j < i ==> !EqualFold(headers[j], name)
    {
      if EqualFold(headers[i], name) {
        ColumnIndexFirst(headers, name, i);
        return i;
      }
    }
    ColumnIndexNone(headers, name);
    return -1;
  }

  /** The first matching header is the one `ColumnIndex` names. */
  lemma ColumnIndexFirst(headers: seq<string>, name: string, i: nat)
    requires i < |headers| && EqualFold(headers[i], name)
    requires forall j :: 0 <= j < i ==> !EqualFold(headers[j], name)
    ensures ColumnIndex(headers, name) == i
  {
  }

  /** With no matching header `ColumnIndex` is -1. */
  lemma ColumnIndexNone(headers: seq<string>, name: string)
    requires forall j :: 0 <= j < |headers| ==> !EqualFold(headers[j], name)
    ensures ColumnIndex(headers, name) == -1
  {
  }

  /** The column positions of SrNo, Item Code and Item Name. */
  datatype Columns = Columns(srno: int, itemCode: int, name: int)

  function ColumnsOf(headers: seq<string>): Columns {
    Columns(ColumnIndex(headers, "SrNo"), ColumnIndex(headers, "Item Code"), ColumnIndex(headers, "Item Name"))
  }

  /** A cell of a row, or `default` when the column is missing or the row is short. */
  function Cell(row: seq<string>, idx: int, default: string): (r: string)
    ensures 0 <= idx < |row| ==> r == row[idx]
    ensures !(0 <= idx < |row|) ==> r == default
  {
    if 0 <= idx < |row| then row[idx] else default
  }

  /** The item name of a row; "" when absent. */
  function NameOf(row: seq<string>, cols: Columns): string {
    Cell(row, cols.name, "")
  }

  /** Which rows are looked up: those with a non-empty item name. */
  function Looked(rows: seq<seq<string>>, cols: Columns): (r: seq<bool>)
    ensures |r| == |rows|
    ensures forall i :: 0 <= i < |rows| ==> r[i] == (NameOf(rows[i], cols) != "")
  {
    seq(|rows|, i requires 0 <= i < |rows| => NameOf(rows[i], cols) != "")
  }

  /** The result line of a looked-up row: the row's own columns and the record of the lookup. */
  function RowResult(row: seq<string>, cols: Columns, p: ProductInfo): ResultRow {
    ResultRow(Cell(row, cols.srno, "NA"), Cell(row, cols.itemCode, "NA"), NameOf(row, cols),
              p.Title, p.Description, p.Price, p.ProductDetails, p.Image, p.URL, p.Discontinued,
              p.UnspscCode, p.Dimensions, p.Weight, p.Manufacturer, p.ASIN, p.ModelNumber,
              p.CountryOfOrigin, p.DateFirstAvailable, p.IncludedComponents, p.GenericName, p.Error)
  }

  /** The result lines of the first `hi` rows: one per looked-up row, in row order. */
  function ResultsOf(rows: seq<seq<string>>, cols: Columns, lookup: Lookup, hi: nat): seq<ResultRow>
    requires hi <= |rows|
  {
    if hi == 0 then []
    else
      var row := rows[hi - 1];
      ResultsOf(rows, cols, lookup, hi - 1)
      + (if NameOf(row, cols) != "" then [RowResult(row, cols, lookup(NameOf(row, cols)))] else [])
  }

  /**
    The result lines are exactly the looked-up rows, in order: line `j` belongs to the
    `j`-th row with a non-empty name and carries that name, its SrNo and Item Code
    ("NA" when missing) and the lookup of that name.
  */
  lemma {:induction false} ResultsOfLookedRows(rows: seq<seq<string>>, cols: Columns, lookup: Lookup, hi: nat)
    requires hi <= |rows|
    ensures var r, l := ResultsOf(rows, cols, lookup, hi), LookedRows(Looked(rows, cols), 0, hi);
      |r| == |l|
      && forall j :: 0 <= j < |r| ==>
           l[j] < |rows| && r[j] == RowResult(rows[l[j]], cols, lookup(NameOf(rows[l[j]], cols)))
           && r[j].ItemName != ""
  {
    LookedRowsExact(Looked(rows, cols), 0, hi);
    if hi > 0 {
      ResultsOfLookedRows(rows, cols, lookup, hi - 1);
    }
  }

  /** A table without an Item Name column gives no result lines at all. */
  lemma {:induction false} NoNameColumnNoResults(rows: seq<seq<string>>, cols: Columns, lookup: Lookup, hi: nat)
    requires hi <= |rows| && cols.name < 0
    ensures ResultsOf(rows, cols, lookup, hi) == []
  {
    if hi > 0 {
      NoNameColumnNoResults(rows, cols, lookup, hi - 1);
    }
  }

  /** `filepath.Join("output_files", "output_<id>.<ext>")`. */
  function OutputPath(jobID: string, fileType: FileType): string {
    "output_files/output_" + jobID + (if fileType == Xlsx then ".xlsx" else ".csv")
  }

  /** The record of a job while rows are being counted: the total set, the processed count once rows are done. */
  function Running(job: JobInfo, total: int, processed: nat): JobInfo {
    if processed == 0 then job.(Total := total) else job.(Total := total, Processed := processed)
  }

  /** The processed counts `1, 2, ..., n`, reported one per row. */
  function Counts(n: nat): (r: seq<int>)
    ensures |r| == n
    ensures forall k :: 0 <= k < n ==> r[k] == k + 1
  {
    if n == 0 then [] else Counts(n - 1) + [n]
  }

  /** The job table while the runner is at `processed` rows of `total`: only `jobID`'s record changed. */
  predicate RunningTable(now: map<string, JobInfo>, before: map<string, JobInfo>, jobID: string,
                         total: int, processed: nat) {
    now == if jobID in before then before[jobID := Running(before[jobID], total, processed)] else before
  }

  /** One more row adds its line, if it has one, to the results and its item pause to the log. */
  lemma ResultsOfStep(rows: seq<seq<string>>, cols: Columns, lookup: Lookup, j: nat, line: Option<ResultRow>)
    requires j < |rows|
    requires line.None? <==> NameOf(rows[j], cols) == ""
    requires line.Some? ==> line.value == RowResult(rows[j], cols, lookup(NameOf(rows[j], cols)))
    ensures ResultsOf(rows, cols, lookup, j + 1) == ResultsOf(rows, cols, lookup, j) + (if line.Some? then [line.value] else [])
    ensures Looked(rows, cols)[j] == line.Some?
  {
  }

  /** Reporting one more processed row moves the table from `p` to `p + 1` rows. */
  lemma RunningStep(now: map<string, JobInfo>, before: map<string, JobInfo>, jobID: string, total: int, p: nat)
    requires RunningTable(now, before, jobID, total, p)
    ensures RunningTable(if jobID in now then now[jobID := now[jobID].(Processed := p + 1)] else now,
                         before, jobID, total, p + 1)
  {
    if jobID in before {
      assert Running(before[jobID], total, p).(Processed := p + 1) == Running(before[jobID], total, p + 1);
    }
  }

  /** The final status update overwrites everything the counting phase changed. */
  lemma StatusUpdateAfterRunning(now: map<string, JobInfo>, before: map<string, JobInfo>, jobID: string, n: nat,
                                 status: Status, outputFile: string, errorMsg: string)
    requires RunningTable(now, before, jobID, n, n)
    ensures (jobID in now) == (jobID in before)
    ensures jobID in now ==>
              now[jobID := StatusUpdate(now[jobID], status, n, n, outputFile, errorMsg)]
              == before[jobID := StatusUpdate(before[jobID], status, n, n, outputFile, errorMsg)]
  {
    if jobID in before {
      var job := before[jobID];
      assert StatusUpdate(Running(job, n, n), status, n, n, outputFile, errorMsg)
             == StatusUpdate(job, status, n, n, outputFile, errorMsg);
    }
  }

  /**
    One row of the inner loop of `processFile`: its SrNo, Item Code and name, then,
    for a non-empty name, the lookup and the result line. `None` is a skipped row.
  */
  method RowLine(row: seq<string>, cols: Columns, lookup: Lookup) returns (line: Option<ResultRow>)
    ensures line.None? <==> NameOf(row, cols) == ""
    ensures line.Some? ==> line.value == RowResult(row, cols, lookup(NameOf(row, cols)))
  {
    var srno := if 0 <= cols.srno < |row| then row[cols.srno] else "NA";
    var itemCode := if 0 <= cols.itemCode < |row| then row[cols.itemCode] else "NA";
    var name := if 0 <= cols.name < |row| then row[cols.name] else "";
    if name == "" {
      return None;
    }
    var info := lookup(name);
    line := Some(ResultRow(srno, itemCode, name, info.Title, info.Description, info.Price,
                           info.ProductDetails, info.Image, info.URL, info.Discontinued,
                           info.UnspscCode, info.Dimensions, info.Weight, info.Manufacturer,
                           info.ASIN, info.ModelNumber, info.CountryOfOrigin,
                           info.DateFirstAvailable, info.IncludedComponents, info.GenericName,
                           info.Error));
  }

  /**
    One pass of the inner loop of `processFile`, on row `j`: the result line and an item
    pause when the row has a name, then the processed count `j + 1` reported to the job table.
  */
  method ProcessRow(jobs: JobRegistry, rows: seq<seq<string>>, cols: Columns, jobID: string,
                    lookup: Lookup, lo: nat, j: nat, ghost before: map<string, JobInfo>,
                    results0: seq<ResultRow>, pauses0: seq<Pause>, ghost progress0: seq<int>)
    returns (results: seq<ResultRow>, pauses: seq<Pause>, ghost progress: seq<int>)
    requires lo <= j < |rows|
    requires pauses0 == ItemPauses(Looked(rows, cols), lo, j)
    requires results0 == ResultsOf(rows, cols, lookup, j)
    requires progress0 == Counts(j)
    requires RunningTable(jobs.jobs, before, jobID, |rows|, j)
    modifies jobs
    ensures pauses == ItemPauses(Looked(rows, cols), lo, j + 1)
    ensures results == ResultsOf(rows, cols, lookup, j + 1)
    ensures progress == Counts(j + 1)
    ensures RunningTable(jobs.jobs, before, jobID, |rows|, j + 1)
    ensures jobs.statusLog == old(jobs.statusLog)
  {
    results, pauses := results0, pauses0;
    var line := RowLine(rows[j], cols, lookup);
    ResultsOfStep(rows, cols, lookup, j, line);
    if line.Some? {
      results := results + [line.value];
      pauses := pauses + [ItemPause(j)];
    }
    var processed := j + 1;
    progress := progress0 + [processed];
    RunningStep(jobs.jobs, before, jobID, |rows|, j);
    jobs.UpdateJobProgress(jobID, processed);
  }

  /**
    The inner loop of `processFile` over the rows `lo` up to `hi` of one window: a
    result line and an item pause per looked-up row, and the processed count of every
    row, skipped or not, reported to the job table.
  */
  method ProcessWindow(jobs: JobRegistry, rows: seq<seq<string>>, cols: Columns, jobID: string,
                       lookup: Lookup, lo: nat, hi: nat, ghost before: map<string, JobInfo>,
                       results0: seq<ResultRow>, ghost progress0: seq<int>)
    returns (results: seq<ResultRow>, pauses: seq<Pause>, ghost progress: seq<int>)
    requires lo <= hi <= |rows|
    requires results0 == ResultsOf(rows, cols, lookup, lo)
    requires progress0 == Counts(lo)
    requires RunningTable(jobs.jobs, before, jobID, |rows|, lo)
    modifies jobs
    ensures results == ResultsOf(rows, cols, lookup, hi)
    ensures pauses == ItemPauses(Looked(rows, cols), lo, hi)
    ensures progress == Counts(hi)
    ensures RunningTable(jobs.jobs, before, jobID, |rows|, hi)
    ensures jobs.statusLog == old(jobs.statusLog)
  {
    results, pauses, progress := results0, [], progress0;
    for j := lo to hi
      invariant pauses == ItemPauses(Looked(rows, cols), lo, j)
      invariant results == ResultsOf(rows, cols, lookup, j)
      invariant progress == Counts(j)
      invariant RunningTable(jobs.jobs, before, jobID, |rows|, j)
      invariant jobs.statusLog == old(jobs.statusLog)
    {
      results, pauses, progress := ProcessRow(jobs, rows, cols, jobID, lookup, lo, j, before, results, pauses, progress);
    }
  }

  /**
    One pass of the outer loop of `processFile`: the window of rows from `i`, then a
    batch pause when rows remain after it. The pause log stays a prefix of the log of
    the whole table, up to the window that starts at `i + BatchSize`.
  */
  method ProcessBatch(jobs: JobRegistry, rows: seq<seq<string>>, cols: Columns, jobID: string,
                      lookup: Lookup, i: nat, ghost before: map<string, JobInfo>,
                      results0: seq<ResultRow>, pauses0: seq<Pause>, ghost progress0: seq<int>)
    returns (results: seq<ResultRow>, pauses: seq<Pause>, ghost progress: seq<int>, processed: nat)
    requires i < |rows|
    requires pauses0 + PauseLog(Looked(rows, cols), BatchSize, i) == PauseLog(Looked(rows, cols), BatchSize, 0)
    requires results0 == ResultsOf(rows, cols, lookup, i)
    requires progress0 == Counts(i)
    requires RunningTable(jobs.jobs, before, jobID, |rows|, i)
    modifies jobs
    ensures processed == if i + BatchSize < |rows| then i + BatchSize else |rows|
    ensures pauses + PauseLog(Looked(rows, cols), BatchSize, i + BatchSize) == PauseLog(Looked(rows, cols), BatchSize, 0)
    ensures results == ResultsOf(rows, cols, lookup, processed)
    ensures progress == Counts(processed)
    ensures RunningTable(jobs.jobs, before, jobID, |rows|, processed)
    ensures jobs.statusLog == old(jobs.statusLog)
  {
    var n := |rows|;
    var end := i + BatchSize;
    if end > n {
      end := n;
    }
    ghost var looked := Looked(rows, cols);
    assert |looked| == n;
    assert end == WindowEnd(n, BatchSize, i);
    var windowPauses;
    results, windowPauses, progress := ProcessWindow(jobs, rows, cols, jobID, lookup, i, end, before, results0, progress0);
    var batch := BatchAfter(n, BatchSize, i);
    pauses := pauses0 + windowPauses + batch;
    processed := end;
    PauseLogAdvance(looked, BatchSize, i, pauses0, windowPauses, batch);
  }

  /**
    The outer loop of `processFile`: the rows in windows of `BatchSize`, each window
    followed by a batch pause when rows remain after it. Every row ends up processed.
    The windows visited, returned as ghost, are `Windows(rows, BatchSize)`.
  */
  method ProcessRows(jobs: JobRegistry, rows: seq<seq<string>>, cols: Columns, jobID: string,
                     lookup: Lookup, ghost before: map<string, JobInfo>)
    returns (results: seq<ResultRow>, pauses: seq<Pause>, ghost progress: seq<int>,
             ghost windows: seq<seq<seq<string>>>)
    requires RunningTable(jobs.jobs, before, jobID, |rows|, 0)
    modifies jobs
    ensures windows == Windows(rows, BatchSize)
    ensures results == ResultsOf(rows, cols, lookup, |rows|)
    ensures pauses == PauseLog(Looked(rows, cols), BatchSize, 0)
    ensures progress == Counts(|rows|)
    ensures RunningTable(jobs.jobs, before, jobID, |rows|, |rows|)
    ensures jobs.statusLog == old(jobs.statusLog)
  {
    results, pauses, progress, windows := [], [], [], [];
    var n := |rows|;
    var processed: nat := 0;
    var i: nat := 0;
    while i < n
      invariant processed == if i < n then i else n
      invariant windows + RunWindows(rows, BatchSize, i) == RunWindows(rows, BatchSize, 0)
      invariant pauses + PauseLog(Looked(rows, cols), BatchSize, i) == PauseLog(Looked(rows, cols), BatchSize, 0)
      invariant results == ResultsOf(rows, cols, lookup, processed)
      invariant progress == Counts(processed)
      invariant RunningTable(jobs.jobs, before, jobID, n, processed)
      invariant jobs.statusLog == old(jobs.statusLog)
      decreases n - i
    {
      windows := windows + [rows[i .. WindowEnd(n, BatchSize, i)]];
      results, pauses, progress, processed := ProcessBatch(jobs, rows, cols, jobID, lookup, i, before, results, pauses, progress);
      i := i + BatchSize;
    }
    RunWindowsAreWindows(rows, BatchSize, 0);
    assert rows[0..] == rows;
  }

  /**
    Go `processFile(filePath, fileType, jobID)`. `read` is what the reader returned,
    `writeError` the error of the writer, if any, and `lookup` what
    `getProductInfoUsingChromeDp(name, 0)` returns for each name: with the browser
    behaving as the oracle `run`, that is `Lookups(run)`, which `GetProductInfo`
    computes. Returns the result lines, the pause log, (as ghost) every processed
    count reported to the job table, in order, and the files the deferred clean-up
    removes: the uploaded file, whichever way the runner returns.
  */
  method ProcessFile(jobs: JobRegistry, filePath: string, read: Result<Table>, fileType: FileType, jobID: string,
                     lookup: Lookup, writeError: Option<string>)
    returns (results: seq<ResultRow>, pauses: seq<Pause>, ghost progress: seq<int>, removed: seq<string>)
    modifies jobs
    ensures removed == [filePath]
    ensures read.Failure? ==>
              results == [] && pauses == [] && progress == []
              && jobs.jobs == (if jobID in old(jobs.jobs)
                               then old(jobs.jobs)[jobID := StatusUpdate(old(jobs.jobs)[jobID], Failed, 0, 0, "", "Error reading file: " + read.error)]
                               else old(jobs.jobs))
    ensures read.Success? ==>
              var rows, cols := read.value.rows, ColumnsOf(read.value.headers);
              var n := |rows|;
              results == ResultsOf(rows, cols, lookup, n)
              && pauses == PauseLog(Looked(rows, cols), BatchSize, 0)
              && progress == Counts(n)
              && jobs.jobs == (if jobID !in old(jobs.jobs) then old(jobs.jobs)
                               else if writeError.None?
                               then old(jobs.jobs)[jobID := StatusUpdate(old(jobs.jobs)[jobID], Completed, n, n, OutputPath(jobID, fileType), "")]
                               else old(jobs.jobs)[jobID := StatusUpdate(old(jobs.jobs)[jobID], Failed, n, n, "", "Error saving results: " + writeError.value)])
    ensures jobs.statusLog == old(jobs.statusLog) +
              if jobID !in old(jobs.jobs) then []
              else if read.Success? && writeError.None? then [(jobID, Completed)]
              else [(jobID, Failed)]
  {
    results, pauses, progress := [], [], [];
    if read.Failure? {
      jobs.UpdateJobStatus(jobID, Failed, 0, 0, "", "Error reading file: " + read.error);
      removed := [filePath];
      return;
    }
    var rows := read.value.rows;
    var headers := read.value.headers;
    var n := |rows|;
    jobs.UpdateJobTotalCount(jobID, n);
    var srnoIdx := FindColumnIndex(headers, "SrNo");
    var itemCodeIdx := FindColumnIndex(headers, "Item Code");
    var nameIdx := FindColumnIndex(headers, "Item Name");
    var cols := Columns(srnoIdx, itemCodeIdx, nameIdx);
    ghost var before := old(jobs.jobs);
    ghost var windows;
    results, pauses, progress, windows := ProcessRows(jobs, rows, cols, jobID, lookup, before);
    var processed := n;
    StatusUpdateAfterRunning(jobs.jobs, before, jobID, n, if writeError.Some? then Failed else Completed,
                             if writeError.Some? then "" else OutputPath(jobID, fileType),
                             if writeError.Some? then "Error saving results: " + writeError.value else "");
    if writeError.Some? {
      jobs.UpdateJobStatus(jobID, Failed, processed, n, "", "Error saving results: " + writeError.value);
    } else {
      var outputPath := OutputPath(jobID, fileType);
      jobs.UpdateJobStatus(jobID, Completed, processed, n, outputPath, "");
    }
    removed := [filePath];
  }
}
