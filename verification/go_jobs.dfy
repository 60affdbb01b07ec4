/**
  The Go back end's job table (`activeJobs` behind an RWMutex) and the handlers that
  read it or create entries in it. Each registry method is atomic, as the lock makes it.
  Times are whole seconds supplied by the caller; the float percentage is an exact
  `real`.
*/
module GoJobs {

  import opened Wrappers
  import opened Text
  import opened Ratio
  import opened Clock

  datatype Status = Processing | Completed | Failed

  /** Go `JobInfo` without its derived fields. */
  datatype JobInfo = JobInfo(
    Status: Status,
    Processed: int,
    Total: int,
    StartTime: nat,
    FileName: string,
    OutputFile: string,
    Error: string)

  /** The copy `getJobInfo` hands out, with the derived fields filled in. */
  datatype JobView = JobView(Job: JobInfo, ProgressPercentage: real, ElapsedSeconds: nat, ElapsedFormatted: string)

  /** Go `formatDuration` over whole seconds: `HH:MM:SS`, hours not capped. */
  function FormatDuration(seconds: nat): string {
    Pad2(seconds / 3600) + ":" + Pad2(seconds / 60 % 60) + ":" + Pad2(seconds % 60)
  }

  /**
    `formatDuration` loses nothing: the string has the `HH:MM:SS` shape, minutes and
    seconds below 60, and reading it back gives the number of seconds.
  */
  lemma FormatDurationRoundTrip(seconds: nat)
    ensures |FormatDuration(seconds)| >= 8
    ensures FormatDuration(seconds)[|FormatDuration(seconds)| - 3] == ':'
    ensures FormatDuration(seconds)[|FormatDuration(seconds)| - 6] == ':'
    ensures ParseDuration(FormatDuration(seconds)) == seconds
  {
    var h, m, sec := seconds / 3600, seconds / 60 % 60, seconds % 60;
    Pad2Value(h);
    Pad2Value(m);
    Pad2Value(sec);
    ThreeFields(Pad2(h), Pad2(m), Pad2(sec));
    DurationParts(seconds);
  }

  /** The file types the upload handler accepts. */
  datatype FileType = Xlsx | Csv

  /** The upload handler's dispatch on the lower-cased file name suffix. */
  function FileTypeOf(fileName: string): Option<FileType> {
    if HasSuffix(ToLower(fileName), ".xlsx") then Some(Xlsx)
    else if HasSuffix(ToLower(fileName), ".csv") then Some(Csv)
    else None
  }

  /** A name is accepted exactly when it ends in `.xlsx` or `.csv` in any letter case. */
  lemma FileTypeOfAccepts(fileName: string)
    ensures FileTypeOf(fileName) == Some(Xlsx) <==> HasSuffix(ToLower(fileName), ".xlsx")
    ensures FileTypeOf(fileName) == Some(Csv) <==> HasSuffix(ToLower(fileName), ".csv")
    ensures FileTypeOf(fileName).None? <==>
              !HasSuffix(ToLower(fileName), ".xlsx") && !HasSuffix(ToLower(fileName), ".csv")
  {
    var l := ToLower(fileName);
    assert HasSuffix(l, ".csv") ==> l[|l| - 4] == ".csv"[0] == '.';
    assert HasSuffix(l, ".xlsx") ==> l[|l| - 4] == ".xlsx"[1] == 'x';
  }

  /** An upper-case suffix is accepted. */
  lemma UpperCaseSuffixAccepted()
    ensures FileTypeOf("A.CSV") == Some(Csv)
  {
    assert ToLower("A.CSV") == "a.csv";
  }

  /** `updateJobStatus` on an existing record: empty output file or error arguments keep the old values. */
  function StatusUpdate(job: JobInfo, status: Status, processed: int, total: int,
                        outputFile: string, errorMsg: string): (r: JobInfo)
    ensures r.Status == status && r.Processed == processed && r.Total == total
    ensures r.StartTime == job.StartTime && r.FileName == job.FileName
    ensures r.OutputFile == (if outputFile == "" then job.OutputFile else outputFile)
    ensures r.Error == (if errorMsg == "" then job.Error else errorMsg)
  {
    job.(Status := status, Processed := processed, Total := total,
         OutputFile := if outputFile != "" then outputFile else job.OutputFile,
         Error := if errorMsg != "" then errorMsg else job.Error)
  }

  /** A summary line of `listJobsHandler`. */
  datatype JobSummary = JobSummary(Status: Status, FileName: string, Processed: int, Total: int,
                                   ProgressPercentage: real, StartTime: nat)

  /** The responses of `uploadFileHandler` that the model covers. */
  datatype UploadResponse = UnsupportedFileType | Accepted(jobID: string, fileType: FileType)

  /** The responses of `downloadResultsHandler`. */
  datatype DownloadResponse =
    | JobNotFound
    | NotCompleted(status: Status, processed: int, total: int, progress: real)
    | OutputFileNotFound
    | Attachment(path: string, attachmentName: string)

  /**
    Go `filepath.Ext`: the suffix from the last `.` of the last path element, or ""
    when that element has no `.`.
  */
  function Ext(path: string): (r: string)
    ensures r == [] || (r[0] == '.' && HasSuffix(path, r) && '/' !in r && '.' !in r[1..])
    ensures r == [] <==> forall i :: 0 <= i < |path| && path[i] == '.' ==> '/' in path[i..]
    decreases |path|
  {
    if path == [] || path[|path| - 1] == '/' then ""
    else if path[|path| - 1] == '.' then "."
    else
      var init := path[..|path| - 1];
      var e := Ext(init);
      assert forall i :: 0 <= i < |init| ==> init[i] == path[i] && path[i..] == init[i..] + [path[|path| - 1]];
      if e == [] then [] else e + [path[|path| - 1]]
  }

  class JobRegistry {
    /** `activeJobs`: job id to record. */
    var jobs: map<string, JobInfo>
    /** Every `updateJobStatus` that found its job, in order. */
    ghost var statusLog: seq<(string, Status)>

    constructor ()
      ensures jobs == map[] && statusLog == []
    {
      jobs := map[];
      statusLog := [];
    }

    /** The entry `uploadFileHandler` inserts for a new job. */
    method Create(jobID: string, fileName: string, now: nat)
      modifies this
      ensures jobs == old(jobs)[jobID := JobInfo(Processing, 0, 0, now, fileName, "", "")]
      ensures statusLog == old(statusLog)
    {
      jobs := jobs[jobID := JobInfo(Processing, 0, 0, now, fileName, "", "")];
    }

    /** `updateJobStatus`: an unknown id changes nothing. */
    method UpdateJobStatus(jobID: string, status: Status, processed: int, total: int,
                           outputFile: string, errorMsg: string)
      modifies this
      ensures jobID !in old(jobs) ==> jobs == old(jobs) && statusLog == old(statusLog)
      ensures jobID in old(jobs) ==>
                jobs == old(jobs)[jobID := StatusUpdate(old(jobs)[jobID], status, processed, total, outputFile, errorMsg)]
                && statusLog == old(statusLog) + [(jobID, status)]
    {
      if jobID in jobs {
        var job := jobs[jobID];
        job := job.(Status := status, Processed := processed, Total := total);
        if outputFile != "" {
          job := job.(OutputFile := outputFile);
        }
        if errorMsg != "" {
          job := job.(Error := errorMsg);
        }
        jobs := jobs[jobID := job];
        statusLog := statusLog + [(jobID, status)];
      }
    }

    /** `updateJobProgress`: only Processed changes, and only for a known id. */
    method UpdateJobProgress(jobID: string, processed: int)
      modifies this
      ensures jobs == if jobID in old(jobs) then old(jobs)[jobID := old(jobs)[jobID].(Processed := processed)] else old(jobs)
      ensures statusLog == old(statusLog)
    {
      if jobID in jobs {
        jobs := jobs[jobID := jobs[jobID].(Processed := processed)];
      }
    }

    /** `updateJobTotalCount`: only Total changes, and only for a known id. */
    method UpdateJobTotalCount(jobID: string, total: int)
      modifies this
      ensures jobs == if jobID in old(jobs) then old(jobs)[jobID := old(jobs)[jobID].(Total := total)] else old(jobs)
      ensures statusLog == old(statusLog)
    {
      if jobID in jobs {
        jobs := jobs[jobID := jobs[jobID].(Total := total)];
      }
    }

    /**
      `getJobInfo`: a copy of the record with percentage and elapsed time filled in;
      as a function of the table it cannot change it. A start time after `now` counts
      as no time elapsed.
    */
    function GetJobInfo(jobID: string, now: nat): (r: Option<JobView>)
      reads this
      ensures r.None? <==> jobID !in jobs
      ensures r.Some? ==> r.value.Job == jobs[jobID]
      ensures r.Some? && jobs[jobID].Total <= 0 ==> r.value.ProgressPercentage == 0.0
      ensures r.Some? ==>
                r.value.ElapsedSeconds == if now >= jobs[jobID].StartTime then now - jobs[jobID].StartTime else 0
      ensures r.Some? ==> ParseDuration(r.value.ElapsedFormatted) == r.value.ElapsedSeconds
    {
      if jobID !in jobs then None
      else
        var job := jobs[jobID];
        var elapsed: nat := if now >= job.StartTime then now - job.StartTime else 0;
        FormatDurationRoundTrip(elapsed);
        Some(JobView(job, Progress(job.Processed, job.Total), elapsed, FormatDuration(elapsed)))
    }

    /** `listJobsHandler`: one summary per known job, with the counts as stored. */
    function ListJobs(): (r: map<string, JobSummary>)
      reads this
      ensures r.Keys == jobs.Keys
      ensures forall id :: id in r ==>
                r[id].Status == jobs[id].Status && r[id].Processed == jobs[id].Processed
                && r[id].Total == jobs[id].Total && r[id].FileName == jobs[id].FileName
                && r[id].ProgressPercentage == Progress(jobs[id].Processed, jobs[id].Total)
                && r[id].StartTime == jobs[id].StartTime
    {
      map id | id in jobs ::
        JobSummary(jobs[id].Status, jobs[id].FileName, jobs[id].Processed, jobs[id].Total,
                   Progress(jobs[id].Processed, jobs[id].Total), jobs[id].StartTime)
    }

    /**
      `downloadResultsHandler`: 404 for an unknown id, 400 with the live counts while
      the job is not completed, 404 when the output path is empty or not on disk
      (`onDisk` is the set of existing paths), else the file as
      `amazon_results_<id><ext>`.
    */
    function Download(jobID: string, onDisk: set<string>): (r: DownloadResponse)
      reads this
      ensures r == JobNotFound <==> jobID !in jobs
      ensures r.NotCompleted? <==> jobID in jobs && jobs[jobID].Status != Completed
      ensures r.NotCompleted? ==>
                r.status == jobs[jobID].Status
                && r.processed == jobs[jobID].Processed && r.total == jobs[jobID].Total
                && r.progress == Progress(jobs[jobID].Processed, jobs[jobID].Total)
      ensures r.Attachment? <==>
                jobID in jobs && jobs[jobID].Status == Completed
                && jobs[jobID].OutputFile != "" && jobs[jobID].OutputFile in onDisk
      ensures r.Attachment? ==>
                r.path == jobs[jobID].OutputFile
                && r.attachmentName == "amazon_results_" + jobID + Ext(r.path)
    {
      if jobID !in jobs then JobNotFound
      else
        var job := jobs[jobID];
        if job.Status != Completed then
          NotCompleted(job.Status, job.Processed, job.Total, Progress(job.Processed, job.Total))
        else if job.OutputFile == "" || job.OutputFile !in onDisk then OutputFileNotFound
        else Attachment(job.OutputFile, "amazon_results_" + jobID + Ext(job.OutputFile))
    }

    /**
      The part of `uploadFileHandler` that decides on the file type and registers the
      job: an unsupported name is refused and no job is created.
    */
    method UploadFile(fileName: string, jobID: string, now: nat) returns (resp: UploadResponse)
      modifies this
      ensures resp == UnsupportedFileType <==> FileTypeOf(fileName).None?
      ensures resp == UnsupportedFileType ==> jobs == old(jobs)
      ensures resp.Accepted? ==>
                resp == Accepted(jobID, FileTypeOf(fileName).value)
                && jobs == old(jobs)[jobID := JobInfo(Processing, 0, 0, now, fileName, "", "")]
      ensures statusLog == old(statusLog)
    {
      var lower := ToLower(fileName);
      var fileType: FileType;
      if HasSuffix(lower, ".xlsx") {
        fileType := Xlsx;
      } else if HasSuffix(lower, ".csv") {
        fileType := Csv;
      } else {
        return UnsupportedFileType;
      }
      Create(jobID, fileName, now);
      resp := Accepted(jobID, fileType);
    }
  }
}
