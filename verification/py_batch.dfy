/**
  The Python job runner `process_excel_background`: it reads the uploaded sheet, looks
  up every row with a non-empty "Item Name" in windows of five rows, writes the running
  count to the job after every looked-up row, and finally writes the results and marks
  the job completed or failed. Reading and writing the sheet are given as their
  outcomes; the lookups are a `PyLookup.Lookup`; the random sleeps become the pause
  log of `Pacing`.
*/
module PyBatch {

  import opened Wrappers
  import opened Pacing
  import opened PyExtract
  import opened PyLookup
  import opened PyJobs

  /** One line of the output sheet: the item name, then the lookup dict's keys under their column titles. */
  datatype ResultRow = ResultRow(
    ItemName: string,
    Title: string,
    Description: string,
    Composition: string,
    Price: string,
    ImageURL: string,
    AmazonURL: string,
    IsDiscontinued: string,
    UnspscCode: string,
    ProductDimensions: string,
    ItemWeight: string,
    Manufacturer: string,
    ASIN: string,
    ModelNumber: string,
    CountryOfOrigin: string,
    DateFirstAvailable: string,
    IncludedComponents: string,
    GenericName: string,
    Error: string)

  /**
    The "Item Name" cell of each row, as `row.get("Item Name")` returns it: `None` when
    the sheet has no such column.
  */
  type Cells = seq<Option<string>>

  /** `batch_size`. */
  const BatchSize: nat := 5

  /** `not name` is false: the row is looked up. */
  predicate HasName(cell: Option<string>) {
    cell.Some? && cell.value != ""
  }

  /** Which rows are looked up. */
  function Looked(cells: Cells): (r: seq<bool>)
    ensures |r| == |cells|
    ensures forall i :: 0 <= i < |cells| ==> r[i] == HasName(cells[i])
  {
    seq(|cells|, i requires 0 <= i < |cells| => HasName(cells[i]))
  }

  /**
    The result line of a looked-up name: every `.get(key, "")` of the reply. A product
    dict has no "error" key; an error dict has nothing else.
  */
  function RowResult(name: string, reply: Reply): (r: ResultRow)
    ensures r.ItemName == name
    ensures reply.ErrorOnly? ==>
              r == ResultRow(name, "", "", "", "", "", "", "", "", "", "", "", "", "", "", "", "", "", reply.error)
    ensures reply.Product? ==>
              var p := reply.info;
              r == ResultRow(name, p.title, p.description, p.composition, p.price, p.image, p.url,
                             p.discontinued, p.unspscCode, p.dimensions, p.weight, p.manufacturer,
                             p.asin, p.modelNumber, p.countryOfOrigin, p.dateFirstAvailable,
                             p.includedComponents, p.genericName, "")
  {
    match reply
    case ErrorOnly(e) =>
      ResultRow(name, "", "", "", "", "", "", "", "", "", "", "", "", "", "", "", "", "", e)
    case Product(p) =>
      ResultRow(name, p.title, p.description, p.composition, p.price, p.image, p.url, p.discontinued,
                p.unspscCode, p.dimensions, p.weight, p.manufacturer, p.asin, p.modelNumber,
                p.countryOfOrigin, p.dateFirstAvailable, p.includedComponents, p.genericName, "")
  }

  /** The result lines of the first `hi` rows: one per looked-up row, in row order. */
  function ResultsOf(cells: Cells, lookup: Lookup, hi: nat): seq<ResultRow>
    requires hi <= |cells|
  {
    if hi == 0 then []
    else
      ResultsOf(cells, lookup, hi - 1)
      + (if HasName(cells[hi - 1]) then [RowResult(cells[hi - 1].value, lookup(cells[hi - 1].value))] else [])
  }

  /**
    The result lines are exactly the looked-up rows, in order: line `j` belongs to the
    `j`-th row with a non-empty name and carries that name and its lookup.
  */
  lemma {:induction false} ResultsOfLookedRows(cells: Cells, lookup: Lookup, hi: nat)
    requires hi <= |cells|
    ensures var r, l := ResultsOf(cells, lookup, hi), LookedRows(Looked(cells), 0, hi);
      |r| == |l|
      && forall j :: 0 <= j < |r| ==>
           l[j] < |cells| && HasName(cells[l[j]])
           && r[j] == RowResult(cells[l[j]].value, lookup(cells[l[j]].value))
  {
    LookedRowsExact(Looked(cells), 0, hi);
    if hi > 0 {
      ResultsOfLookedRows(cells, lookup, hi - 1);
    }
  }

  /**
    The "processed" value of the job after the first `hi` rows: the running count is
    written only after a looked-up row, so it is the number of rows up to and including
    the last looked-up one, or the value it had before (`init`) when none was looked up.
  */
  function ProcessedAfter(cells: Cells, hi: nat, init: int): int
    requires hi <= |cells|
  {
    if hi == 0 then init
    else if HasName(cells[hi - 1]) then hi
    else ProcessedAfter(cells, hi - 1, init)
  }

  /**
    Without a named row among the first `hi` the value is untouched; otherwise it is the
    position after the last named row.
  */
  lemma {:induction false} ProcessedAfterLastNamed(cells: Cells, hi: nat, init: int)
    requires hi <= |cells|
    ensures (forall j :: 0 <= j < hi ==> !HasName(cells[j])) ==> ProcessedAfter(cells, hi, init) == init
    ensures (exists j :: 0 <= j < hi && HasName(cells[j])) ==>
              var r := ProcessedAfter(cells, hi, init);
              1 <= r <= hi && HasName(cells[r - 1]) && forall j :: r <= j < hi ==> !HasName(cells[j])
  {
    if hi > 0 && !HasName(cells[hi - 1]) {
      ProcessedAfterLastNamed(cells, hi - 1, init);
    }
  }

  /** Every value written to the job's "processed", in order: `j + 1` after each looked-up row `j`. */
  function Reported(cells: Cells, hi: nat): (r: seq<int>)
    requires hi <= |cells|
  {
    if hi == 0 then [] else Reported(cells, hi - 1) + (if HasName(cells[hi - 1]) then [hi] else [])
  }

  /** The reported values are the looked-up rows counted from one, and the last of them is what the job holds. */
  lemma {:induction false} ReportedRows(cells: Cells, hi: nat, init: int)
    requires hi <= |cells|
    ensures var r, l := Reported(cells, hi), LookedRows(Looked(cells), 0, hi);
      |r| == |l| && (forall j :: 0 <= j < |r| ==> r[j] == l[j] + 1)
      && ProcessedAfter(cells, hi, init) == if r == [] then init else r[|r| - 1]
  {
    if hi > 0 {
      ReportedRows(cells, hi - 1, init);
    }
  }

  /**
    Rows without a name after the last named one are never counted: a sheet that has a
    named row but ends with an unnamed one finishes with "processed" below "total".
  */
  lemma TrailingUnnamedRowsUncounted(cells: Cells, init: int)
    requires |cells| > 0 && !HasName(cells[|cells| - 1])
    requires exists j :: 0 <= j < |cells| && HasName(cells[j])
    ensures ProcessedAfter(cells, |cells|, init) < |cells|
  {
    ProcessedAfterLastNamed(cells, |cells|, init);
  }

  /** The job dict while the runner is at row `hi`: total set, processed as written so far. */
  function Running(job: Job, cells: Cells, hi: nat): Job
    requires hi <= |cells|
  {
    job.(total := |cells|, processed := ProcessedAfter(cells, hi, job.processed))
  }

  /** The job table while the runner is at row `hi`: only `jobID`'s dict changed. */
  predicate RunningTable(now: map<string, Job>, before: map<string, Job>, jobID: string, cells: Cells, hi: nat)
    requires hi <= |cells|
  {
    jobID in before && now == before[jobID := Running(before[jobID], cells, hi)]
  }

  /** One more row adds its line, if it has one, and its count, if it is written. */
  lemma RowStep(cells: Cells, lookup: Lookup, j: nat, line: Option<ResultRow>)
    requires j < |cells|
    requires line.None? <==> !HasName(cells[j])
    requires line.Some? ==> line.value == RowResult(cells[j].value, lookup(cells[j].value))
    ensures ResultsOf(cells, lookup, j + 1) == ResultsOf(cells, lookup, j) + (if line.Some? then [line.value] else [])
    ensures Looked(cells)[j] == line.Some?
  {
  }

  /** Writing `j + 1` after looked-up row `j` moves the table from row `j` to row `j + 1`. */
  lemma RunningStep(now: map<string, Job>, before: map<string, Job>, jobID: string, cells: Cells, j: nat)
    requires j < |cells| && RunningTable(now, before, jobID, cells, j)
    ensures jobID in now
    ensures HasName(cells[j]) ==>
              RunningTable(now[jobID := now[jobID].(processed := j + 1)], before, jobID, cells, j + 1)
    ensures !HasName(cells[j]) ==> RunningTable(now, before, jobID, cells, j + 1)
  {
    var job := before[jobID];
    if HasName(cells[j]) {
      assert Running(job, cells, j).(processed := j + 1) == Running(job, cells, j + 1);
    } else {
      assert Running(job, cells, j) == Running(job, cells, j + 1);
    }
  }

  /**
    One row of the inner loop: a row without a name is skipped; otherwise the lookup,
    its result line, the count written to the job, and an item pause.
  */
  method ProcessRow(jobs: ActiveJobs, cells: Cells, jobID: string, lookup: Lookup, lo: nat, j: nat,
                    ghost before: map<string, Job>, results0: seq<ResultRow>, pauses0: seq<Pause>,
                    ghost reported0: seq<int>)
    returns (results: seq<ResultRow>, pauses: seq<Pause>, ghost reported: seq<int>)
    requires lo <= j < |cells|
    requires jobs.Valid()
    requires pauses0 == ItemPauses(Looked(cells), lo, j)
    requires results0 == ResultsOf(cells, lookup, j)
    requires reported0 == Reported(cells, j)
    requires RunningTable(jobs.jobs, before, jobID, cells, j)
    modifies jobs
    ensures jobs.Valid() && jobs.order == old(jobs.order)
    ensures pauses == ItemPauses(Looked(cells), lo, j + 1)
    ensures results == ResultsOf(cells, lookup, j + 1)
    ensures reported == Reported(cells, j + 1)
    ensures RunningTable(jobs.jobs, before, jobID, cells, j + 1)
  {
    results, pauses, reported := results0, pauses0, reported0;
    RunningStep(jobs.jobs, before, jobID, cells, j);
    var name := cells[j];
    if name.None? || name.value == "" {
      RowStep(cells, lookup, j, None);
      return;
    }
    var reply := lookup(name.value);
    var line := RowResult(name.value, reply);
    RowStep(cells, lookup, j, Some(line));
    results := results + [line];
    var processed := j + 1;
    jobs.SetProcessed(jobID, processed);
    reported := reported + [processed];
    pauses := pauses + [ItemPause(j)];
  }

  /** The inner loop over the rows `lo` up to `hi` of one window. */
  method ProcessWindow(jobs: ActiveJobs, cells: Cells, jobID: string, lookup: Lookup, lo: nat, hi: nat,
                       ghost before: map<string, Job>, results0: seq<ResultRow>, ghost reported0: seq<int>)
    returns (results: seq<ResultRow>, pauses: seq<Pause>, ghost reported: seq<int>)
    requires lo <= hi <= |cells|
    requires jobs.Valid()
    requires results0 == ResultsOf(cells, lookup, lo)
    requires reported0 == Reported(cells, lo)
    requires RunningTable(jobs.jobs, before, jobID, cells, lo)
    modifies jobs
    ensures jobs.Valid() && jobs.order == old(jobs.order)
    ensures results == ResultsOf(cells, lookup, hi)
    ensures pauses == ItemPauses(Looked(cells), lo, hi)
    ensures reported == Reported(cells, hi)
    ensures RunningTable(jobs.jobs, before, jobID, cells, hi)
  {
    results, pauses, reported := results0, [], reported0;
    for j := lo to hi
      invariant jobs.Valid() && jobs.order == old(jobs.order)
      invariant pauses == ItemPauses(Looked(cells), lo, j)
      invariant results == ResultsOf(cells, lookup, j)
      invariant reported == Reported(cells, j)
      invariant RunningTable(jobs.jobs, before, jobID, cells, j)
    {
      results, pauses, reported := ProcessRow(jobs, cells, jobID, lookup, lo, j, before, results, pauses, reported);
    }
  }

  /**
    One pass of the outer loop: the window of rows from `i`, then a batch pause when rows
    remain after it. The pause log stays a prefix of the log of the whole sheet.
  */
  method ProcessBatch(jobs: ActiveJobs, cells: Cells, jobID: string, lookup: Lookup, i: nat,
                      ghost before: map<string, Job>, results0: seq<ResultRow>, pauses0: seq<Pause>,
                      ghost reported0: seq<int>)
    returns (results: seq<ResultRow>, pauses: seq<Pause>, ghost reported: seq<int>, done: nat)
    requires i < |cells|
    requires jobs.Valid()
    requires pauses0 + PauseLog(Looked(cells), BatchSize, i) == PauseLog(Looked(cells), BatchSize, 0)
    requires results0 == ResultsOf(cells, lookup, i)
    requires reported0 == Reported(cells, i)
    requires RunningTable(jobs.jobs, before, jobID, cells, i)
    modifies jobs
    ensures jobs.Valid() && jobs.order == old(jobs.order)
    ensures done == if i + BatchSize < |cells| then i + BatchSize else |cells|
    ensures pauses + PauseLog(Looked(cells), BatchSize, i + BatchSize) == PauseLog(Looked(cells), BatchSize, 0)
    ensures results == ResultsOf(cells, lookup, done)
    ensures reported == Reported(cells, done)
    ensures RunningTable(jobs.jobs, before, jobID, cells, done)
  {
    var n := |cells|;
    var end := i + BatchSize;
    if end > n {
      end := n;
    }
    ghost var looked := Looked(cells);
    assert |looked| == n;
    assert end == WindowEnd(n, BatchSize, i);
    var windowPauses;
    results, windowPauses, reported := ProcessWindow(jobs, cells, jobID, lookup, i, end, before, results0, reported0);
    var batch := BatchAfter(n, BatchSize, i);
    pauses := pauses0 + windowPauses + batch;
    done := end;
    PauseLogAdvance(looked, BatchSize, i, pauses0, windowPauses, batch);
  }

  /**
    The outer loop: `for i in range(0, total_products, batch_size)`. The windows
    visited, returned as ghost, are `Windows(cells, BatchSize)`.
  */
  method ProcessRows(jobs: ActiveJobs, cells: Cells, jobID: string, lookup: Lookup, ghost before: map<string, Job>)
    returns (results: seq<ResultRow>, pauses: seq<Pause>, ghost reported: seq<int>, ghost windows: seq<Cells>)
    requires jobs.Valid()
    requires RunningTable(jobs.jobs, before, jobID, cells, 0)
    modifies jobs
    ensures windows == Windows(cells, BatchSize)
    ensures jobs.Valid() && jobs.order == old(jobs.order)
    ensures results == ResultsOf(cells, lookup, |cells|)
    ensures pauses == PauseLog(Looked(cells), BatchSize, 0)
    ensures reported == Reported(cells, |cells|)
    ensures RunningTable(jobs.jobs, before, jobID, cells, |cells|)
  {
    results, pauses, reported, windows := [], [], [], [];
    var n := |cells|;
    var done: nat := 0;
    var i: nat := 0;
    while i < n
      invariant done == if i < n then i else n
      invariant windows + RunWindows(cells, BatchSize, i) == RunWindows(cells, BatchSize, 0)
      invariant jobs.Valid() && jobs.order == old(jobs.order)
      invariant pauses + PauseLog(Looked(cells), BatchSize, i) == PauseLog(Looked(cells), BatchSize, 0)
      invariant results == ResultsOf(cells, lookup, done)
      invariant reported == Reported(cells, done)
      invariant RunningTable(jobs.jobs, before, jobID, cells, done)
      decreases n - i
    {
      windows := windows + [cells[i .. WindowEnd(n, BatchSize, i)]];
      results, pauses, reported, done := ProcessBatch(jobs, cells, jobID, lookup, i, before, results, pauses, reported);
      i := i + BatchSize;
    }
    RunWindowsAreWindows(cells, BatchSize, 0);
    assert cells[0..] == cells;
  }

  /** `f"output_{job_id}.xlsx"`. */
  function OutputName(jobID: string): string {
    "output_" + jobID + ".xlsx"
  }

  /** `f"Error processing Excel: {str(e)}"`. */
  function ProcessingError(msg: string): string {
    "Error processing Excel: " + msg
  }

  /**
    `process_excel_background(path, 5, jobID)`. `read` is what `pd.read_excel` gave,
    `writeError` the exception of `to_excel`, if any, and `lookup` what
    `get_product_info_using_selenium(name)` returns for each name: with the browser
    behaving as the oracle `run`, that is `Lookups(run)`, which `GetProductInfo`
    computes. The upload registered the job before the runner was scheduled. Returns
    the result lines, the pause log, (as ghost) every value written to "processed", and
    the files the `finally` clause unlinks: the temporary file, on every path (a failed
    unlink is only reported).
  */
  method ProcessExcel(jobs: ActiveJobs, tempPath: string, read: Result<Cells>, jobID: string, lookup: Lookup,
                      writeError: Option<string>)
    returns (results: seq<ResultRow>, pauses: seq<Pause>, ghost reported: seq<int>, removed: seq<string>)
    requires jobs.Valid() && jobID in jobs.jobs
    modifies jobs
    ensures removed == [tempPath]
    ensures jobs.Valid() && jobs.order == old(jobs.order)
    ensures read.Failure? ==>
              results == [] && pauses == [] && reported == []
              && jobs.jobs == old(jobs.jobs)[jobID := old(jobs.jobs)[jobID].(status := Failed, error := Some(ProcessingError(read.error)))]
    ensures read.Success? ==>
              var cells := read.value;
              var job := Running(old(jobs.jobs)[jobID], cells, |cells|);
              results == ResultsOf(cells, lookup, |cells|)
              && pauses == PauseLog(Looked(cells), BatchSize, 0)
              && reported == Reported(cells, |cells|)
              && jobs.jobs == old(jobs.jobs)[jobID := if writeError.None?
                                                      then job.(status := Completed, outputFile := Some(OutputName(jobID)))
                                                      else job.(status := Failed, error := Some(ProcessingError(writeError.value)))]
  {
    results, pauses, reported := [], [], [];
    if read.Failure? {
      jobs.SetFailed(jobID, ProcessingError(read.error));
      removed := [tempPath];
      return;
    }
    var cells := read.value;
    var total := |cells|;
    ghost var before := jobs.jobs;
    jobs.SetTotal(jobID, total);
    assert Running(before[jobID], cells, 0) == before[jobID].(total := total);
    ghost var windows;
    results, pauses, reported, windows := ProcessRows(jobs, cells, jobID, lookup, before);
    ghost var job := Running(before[jobID], cells, total);
    if writeError.Some? {
      ghost var failed := job.(status := Failed, error := Some(ProcessingError(writeError.value)));
      Overwrite(jobs.jobs, before, jobID, job, failed);
      jobs.SetFailed(jobID, ProcessingError(writeError.value));
      removed := [tempPath];
      return;
    }
    var output := OutputName(jobID);
    Overwrite(jobs.jobs, before, jobID, job, job.(status := Completed, outputFile := Some(output)));
    jobs.SetCompleted(jobID, output);
    removed := [tempPath];
  }

  /** The last write to a job's dict replaces whatever the earlier writes left there. */
  lemma Overwrite(now: map<string, Job>, before: map<string, Job>, jobID: string, job: Job, last: Job)
    requires now == before[jobID := job]
    ensures jobID in now && now[jobID] == job
    ensures now[jobID := last] == before[jobID := last]
  {
  }

  /**
    The runner's schedule: the log holds an item pause for each looked-up row, in row
    order, and one batch pause fewer than there are windows of five rows.
  */
  lemma ProcessExcelPauses(cells: Cells)
    ensures ItemRows(PauseLog(Looked(cells), BatchSize, 0)) == LookedRows(Looked(cells), 0, |cells|)
    ensures BatchPauses(PauseLog(Looked(cells), BatchSize, 0)) == if cells == [] then 0 else NumWindows(|cells|, BatchSize) - 1
  {
    PauseLogSummary(Looked(cells), BatchSize);
  }
}
