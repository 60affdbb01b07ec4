/**
  The Python back end's job table `active_jobs` (a dict of dicts, kept in insertion
  order) and the endpoints that create entries in it or read it: `/upload/`,
  `/status/{job_id}`, `/download/{job_id}` and `/jobs`. Clock readings are whole
  seconds supplied by the caller; the percentage is an exact `real`.
*/
module PyJobs {

  import opened Wrappers
  import opened Text
  import opened Ratio
  import opened Clock

  /** The values of a job's "status" key. */
  datatype Status = Processing | Completed | Failed

  function StatusName(s: Status): string {
    match s
    case Processing => "processing"
    case Completed => "completed"
    case Failed => "failed"
  }

  /**
    One job dict. "output_file" is present only once the job completed and "error" only
    once it failed; "start_time" is the clock reading at upload.
  */
  datatype Job = Job(
    status: Status,
    processed: int,
    total: int,
    startTime: int,
    fileName: string,
    outputFile: Option<string>,
    error: Option<string>)

  /** The dict `/status/{job_id}` answers: a copy of the job with the derived keys added. */
  datatype StatusView = StatusView(job: Job, progressPercentage: real, elapsedSeconds: int, elapsedFormatted: string)

  /** The answers of `/download/{job_id}`. */
  datatype DownloadReply =
    | JobNotFound
    | NotCompleted(error: string, processed: int, total: int, progressPercentage: real)
    | OutputFileNotFound
    | Attachment(path: string, filename: string)

  /** One entry of `/jobs`. */
  datatype Summary = Summary(status: Status, fileName: string, processed: int, total: int,
                             progressPercentage: real, startTime: int)

  /** What `/upload/` answers once the job is registered (the braces are literal text). */
  datatype UploadReply = UploadReply(jobID: string, message: string)

  const UploadMessage := "Processing started. Use /status/{job_id} to check progress and /download/{job_id} to get results when complete"

  /** `%d:%02d:%02d` of a non-negative number of seconds. */
  function ClockText(seconds: nat): string {
    Decimal(seconds / 3600) + ":" + Pad2(seconds / 60 % 60) + ":" + Pad2(seconds % 60)
  }

  /** `%d` of an integer. */
  function SignedDecimal(n: int): string {
    if n < 0 then "-" + Decimal(-n) else Decimal(n)
  }

  /**
    `str(datetime.timedelta(seconds=s))`: whole days (rounded towards minus infinity,
    so that the rest is a clock time within one day) in front, "day" or "days", then
    the clock time; no day part when there are no whole days.
  */
  function TimedeltaText(seconds: int): string {
    var days := seconds / 86400;
    var clock := ClockText(seconds % 86400);
    if days == 0 then clock
    else SignedDecimal(days) + (if days == 1 || days == -1 then " day, " else " days, ") + clock
  }

  /** The clock text reads back as its number of seconds. */
  lemma ClockTextRoundTrip(seconds: nat)
    ensures |ClockText(seconds)| >= 7
    ensures ParseDuration(ClockText(seconds)) == seconds
  {
    var h, m, sec := seconds / 3600, seconds / 60 % 60, seconds % 60;
    DecimalRoundTrip(h);
    Pad2Value(m);
    Pad2Value(sec);
    ThreeFields(Decimal(h), Pad2(m), Pad2(sec));
    DurationParts(seconds);
  }

  /**
    A timedelta text ends with the clock time of the seconds left over after whole days,
    and that clock time reads back as those seconds; under a day there is nothing else.
  */
  lemma TimedeltaTextClock(seconds: int)
    ensures var t, c := TimedeltaText(seconds), ClockText(seconds % 86400);
      |c| <= |t| && t[|t| - |c|..] == c && ParseDuration(c) == seconds % 86400
      && (0 <= seconds < 86400 ==> t == c)
    ensures (seconds / 86400) * 86400 + seconds % 86400 == seconds
  {
    ClockTextRoundTrip(seconds % 86400);
    if 0 <= seconds < 86400 {
      assert seconds / 86400 == 0;
    }
  }

  /**
    An entry of `/jobs` for one job: the job's own keys, and a percentage that is 0
    until the total is known, within 0..100 while the counts are in range, and 100 once
    every row is processed.
  */
  function SummaryOf(job: Job): (r: Summary)
    ensures r.status == job.status && r.fileName == job.fileName && r.startTime == job.startTime
    ensures r.processed == job.processed && r.total == job.total
    ensures job.total <= 0 ==> r.progressPercentage == 0.0
    ensures 0 <= job.processed <= job.total ==> 0.0 <= r.progressPercentage <= 100.0
    ensures 0 < job.processed == job.total ==> r.progressPercentage == 100.0
  {
    ProgressBounds(job.processed, job.total);
    Summary(job.status, job.fileName, job.processed, job.total, Progress(job.processed, job.total), job.startTime)
  }

  /** Ids in `order` are pairwise different. */
  predicate Distinct(order: seq<string>) {
    forall i, j :: 0 <= i < j < |order| ==> order[i] != order[j]
  }

  class ActiveJobs {
    /** `active_jobs`: job id to job dict. */
    var jobs: map<string, Job>
    /** The ids of `active_jobs` in insertion order, the order its iteration follows. */
    var order: seq<string>

    ghost predicate Valid()
      reads this
    {
      (forall i :: 0 <= i < |order| ==> order[i] in jobs)
      && (forall id :: id in jobs ==> id in order)
      && Distinct(order)
    }

    constructor ()
      ensures Valid() && jobs == map[] && order == []
    {
      jobs := map[];
      order := [];
    }

    /**
      The registration part of `/upload/`: a new job dict under `jobID`. Assigning an id
      already present replaces its dict and keeps its place in the order.
    */
    method Upload(jobID: string, fileName: string, now: int) returns (reply: UploadReply)
      requires Valid()
      modifies this
      ensures Valid()
      ensures jobs == old(jobs)[jobID := Job(Processing, 0, 0, now, fileName, None, None)]
      ensures order == if jobID in old(jobs) then old(order) else old(order) + [jobID]
      ensures reply == UploadReply(jobID, UploadMessage)
    {
      if jobID !in jobs {
        order := order + [jobID];
      }
      jobs := jobs[jobID := Job(Processing, 0, 0, now, fileName, None, None)];
      reply := UploadReply(jobID, UploadMessage);
    }

    /** `active_jobs[job_id]["total"] = total`; the id was registered before the job started. */
    method SetTotal(jobID: string, total: int)
      requires Valid() && jobID in jobs
      modifies this
      ensures Valid() && order == old(order)
      ensures jobs == old(jobs)[jobID := old(jobs)[jobID].(total := total)]
    {
      jobs := jobs[jobID := jobs[jobID].(total := total)];
    }

    /** `active_jobs[job_id]["processed"] = processed`. */
    method SetProcessed(jobID: string, processed: int)
      requires Valid() && jobID in jobs
      modifies this
      ensures Valid() && order == old(order)
      ensures jobs == old(jobs)[jobID := old(jobs)[jobID].(processed := processed)]
    {
      jobs := jobs[jobID := jobs[jobID].(processed := processed)];
    }

    /** Status "completed", then "output_file". */
    method SetCompleted(jobID: string, output: string)
      requires Valid() && jobID in jobs
      modifies this
      ensures Valid() && order == old(order)
      ensures jobs == old(jobs)[jobID := old(jobs)[jobID].(status := Completed, outputFile := Some(output))]
    {
      jobs := jobs[jobID := jobs[jobID].(status := Completed)];
      jobs := jobs[jobID := jobs[jobID].(outputFile := Some(output))];
    }

    /** Status "failed", then "error". */
    method SetFailed(jobID: string, msg: string)
      requires Valid() && jobID in jobs
      modifies this
      ensures Valid() && order == old(order)
      ensures jobs == old(jobs)[jobID := old(jobs)[jobID].(status := Failed, error := Some(msg))]
    {
      jobs := jobs[jobID := jobs[jobID].(status := Failed)];
      jobs := jobs[jobID := jobs[jobID].(error := Some(msg))];
    }

    /**
      `/status/{job_id}`: 404 (`None`) for an unknown id, else a copy of the job with
      the percentage, 0 while the total is 0, and the time since the start.
    */
    function Status(jobID: string, now: int): (r: Option<StatusView>)
      reads this
      ensures r.None? <==> jobID !in jobs
      ensures r.Some? ==> r.value.job == jobs[jobID] && r.value.elapsedSeconds == now - jobs[jobID].startTime
      ensures r.Some? && jobs[jobID].total <= 0 ==> r.value.progressPercentage == 0.0
      ensures r.Some? && 0 <= jobs[jobID].processed <= jobs[jobID].total ==>
                0.0 <= r.value.progressPercentage <= 100.0
      ensures r.Some? && 0 <= r.value.elapsedSeconds < 86400 ==>
                ParseDuration(r.value.elapsedFormatted) == r.value.elapsedSeconds
    {
      if jobID !in jobs then None
      else
        var job := jobs[jobID];
        var elapsed := now - job.startTime;
        ProgressBounds(job.processed, job.total);
        TimedeltaTextClock(elapsed);
        Some(StatusView(job, Progress(job.processed, job.total), elapsed, TimedeltaText(elapsed)))
    }

    /**
      `/download/{job_id}`: 404 for an unknown id; 400 with the status and the counts
      while the job is not completed; 404 when "output_file" is missing, empty or not
      on disk (`onDisk` is the set of existing paths); else the file, offered as
      `amazon_results_<id>.xlsx`.
    */
    function Download(jobID: string, onDisk: set<string>): (r: DownloadReply)
      reads this
      ensures r == JobNotFound <==> jobID !in jobs
      ensures r.NotCompleted? <==> jobID in jobs && jobs[jobID].status != Completed
      ensures r.NotCompleted? ==>
                r.error == "Job is not completed. Current status: " + StatusName(jobs[jobID].status)
                && r.processed == jobs[jobID].processed && r.total == jobs[jobID].total
      ensures r.Attachment? <==>
                jobID in jobs && jobs[jobID].status == Completed && jobs[jobID].outputFile.Some?
                && jobs[jobID].outputFile.value != "" && jobs[jobID].outputFile.value in onDisk
      ensures r.Attachment? ==>
                r.path == jobs[jobID].outputFile.value && r.filename == "amazon_results_" + jobID + ".xlsx"
    {
      if jobID !in jobs then JobNotFound
      else
        var job := jobs[jobID];
        if job.status != Completed then
          NotCompleted("Job is not completed. Current status: " + StatusName(job.status),
                       job.processed, job.total, Progress(job.processed, job.total))
        else if job.outputFile.None? || job.outputFile.value == "" || job.outputFile.value !in onDisk then
          OutputFileNotFound
        else Attachment(job.outputFile.value, "amazon_results_" + jobID + ".xlsx")
    }

    /** The percentage in a refused download is the one `/status/{job_id}` reports. */
    lemma DownloadAgreesWithStatus(jobID: string, onDisk: set<string>, now: int)
      ensures Download(jobID, onDisk).NotCompleted? ==>
                Status(jobID, now).Some?
                && Download(jobID, onDisk).progressPercentage == Status(jobID, now).value.progressPercentage
                && Download(jobID, onDisk).processed == Status(jobID, now).value.job.processed
                && Download(jobID, onDisk).total == Status(jobID, now).value.job.total
    {
    }

    /** `/jobs`: one summary per job, in insertion order, each job exactly once. */
    method ListJobs() returns (r: seq<(string, Summary)>)
      requires Valid()
      ensures |r| == |order|
      ensures forall i :: 0 <= i < |r| ==> r[i].0 == order[i] && order[i] in jobs && r[i].1 == SummaryOf(jobs[order[i]])
      ensures forall id :: id in jobs <==> exists i :: 0 <= i < |r| && r[i].0 == id
      ensures forall i, j :: 0 <= i < j < |r| ==> r[i].0 != r[j].0
    {
      r := [];
      for i := 0 to |order|
        invariant |r| == i
        invariant forall k :: 0 <= k < i ==> r[k] == (order[k], SummaryOf(jobs[order[k]]))
      {
        var id := order[i];
        var job := jobs[id];
        r := r + [(id, SummaryOf(job))];
      }
      forall id | id in jobs ensures exists i :: 0 <= i < |r| && r[i].0 == id {
        var i :| 0 <= i < |order| && order[i] == id;
        assert r[i].0 == id;
      }
    }
  }
}
