/** The tables behind the collector: job rows, run rows, and the batch upsert
    that writes both in one transaction (backend/job_metrics.py). */
module JobMetrics {
  import opened Common

  /** Why a record or a pass is partial. */
  datatype Reason =
    | AttemptInvalid | JobIdInvalid | PayloadInvalid | MalformedJobsPage
    | RepositoryMissingName | RunIdInvalid
    | MalformedRepositoriesPage | MalformedRunsPage
    | RateLimitedReason | AuthUnavailable | RequestFailedReason | PageCapReason
    | CursorInvalid

  /** A job as GitHub sends it. `None` is an absent or non-integer field; `wellFormed` is the
      verdict of the strict payload model on the rest, and `payload` stands for the columns made
      of it: name, status, conclusion, times, durations, runner and labels. */
  datatype JobItem = JobItem(id: Option<int>, attempt: Option<int>, wellFormed: bool, payload: string)

  /** A workflow run as GitHub lists it. */
  datatype RunItem = RunItem(
    id: Option<int>, attempt: Option<int>, updatedAt: Option<string>, completed: bool, concluded: bool)

  datatype JobRow = JobRow(runId: int, attempt: Option<int>, payload: string)

  datatype RunRow = RunRow(attempt: Option<int>, updatedAt: Option<string>, reasons: set<Reason>, complete: bool)

  type JobTable = map<(string, int), JobRow>
  type RunTable = map<(string, int), RunRow>

  datatype Tables = Tables(jobs: JobTable, runs: RunTable)

  /** A positive identifier or attempt; everything else is absent. */
  function Positive(raw: Option<int>): (r: Option<int>)
    ensures r.Some? <==> raw.Some? && raw.value > 0
    ensures r.Some? ==> r == raw
  {
    if raw.Some? && raw.value > 0 then raw else None
  }

  function OrZero(n: Option<int>): int {
    if n.Some? then n.value else 0
  }

  function OrEmpty(s: Option<string>): string {
    if s.Some? then s.value else ""
  }

  /** The job is written to the job table. */
  predicate Storable(job: JobItem): (r: bool)
    ensures r ==> job.id.Some? && job.id.value > 0
  {
    Positive(job.id).Some? && job.wellFormed
  }

  /** The job is written and leaves no reason behind. */
  predicate Clean(job: JobItem) {
    Storable(job) && Positive(job.attempt).Some?
  }

  /** Every reason a list of jobs leaves behind. */
  function JobReasons(jobs: seq<JobItem>): set<Reason> {
    if jobs == [] then {}
    else
      var job := jobs[|jobs| - 1];
      JobReasons(jobs[..|jobs| - 1])
      + (if Positive(job.attempt).None? then {AttemptInvalid} else {})
      + (if Positive(job.id).None? then {JobIdInvalid} else if !job.wellFormed then {PayloadInvalid} else {})
  }

  function StorableJobs(jobs: seq<JobItem>): (r: seq<JobItem>)
    ensures forall j :: j in r <==> j in jobs && Storable(j)
  {
    if jobs == [] then []
    else
      var init := StorableJobs(jobs[..|jobs| - 1]);
      var job := jobs[|jobs| - 1];
      assert jobs == jobs[..|jobs| - 1] + [job];
      if Storable(job) then init + [job] else init
  }

  function Upsert(table: JobTable, repo: string, runId: int, jobs: seq<JobItem>): (r: JobTable)
    requires forall j :: j in jobs ==> Storable(j)
    ensures table.Keys <= r.Keys
    ensures forall j :: j in jobs ==> (repo, OrZero(j.id)) in r
  {
    if jobs == [] then table
    else
      var job := jobs[|jobs| - 1];
      assert jobs == jobs[..|jobs| - 1] + [job];
      Upsert(table, repo, runId, jobs[..|jobs| - 1])
        [(repo, OrZero(job.id)) := JobRow(runId, Positive(job.attempt), job.payload)]
  }

  /** The last job of a batch with an identifier. */
  function LastWith(jobs: seq<JobItem>, id: int): (r: Option<JobItem>)
    ensures r.Some? ==>
              exists i | 0 <= i < |jobs| ::
                jobs[i] == r.value && OrZero(jobs[i].id) == id && forall k | i < k < |jobs| :: OrZero(jobs[k].id) != id
    ensures r.None? ==> forall j :: j in jobs ==> OrZero(j.id) != id
  {
    if jobs == [] then None
    else
      assert jobs == jobs[..|jobs| - 1] + [jobs[|jobs| - 1]];
      if OrZero(jobs[|jobs| - 1].id) == id then Some(jobs[|jobs| - 1]) else LastWith(jobs[..|jobs| - 1], id)
  }

  /** What a batch writes: under each of its identifiers the contents of the last job that has it,
      whatever was there before, and nothing else. */
  lemma {:induction false} UpsertWritesTheLast(
    table: JobTable, repo: string, runId: int, jobs: seq<JobItem>, r: string, id: int)
    requires forall j :: j in jobs ==> Storable(j)
    ensures var after, job := Upsert(table, repo, runId, jobs), LastWith(jobs, id);
            if r == repo && job.Some? then
              (r, id) in after && after[(r, id)] == JobRow(runId, Positive(job.value.attempt), job.value.payload)
            else ((r, id) in after <==> (r, id) in table) && ((r, id) in table ==> after[(r, id)] == table[(r, id)])
  {
    if jobs != [] {
      assert jobs == jobs[..|jobs| - 1] + [jobs[|jobs| - 1]];
      UpsertWritesTheLast(table, repo, runId, jobs[..|jobs| - 1], r, id);
    }
  }

  /** The reasons stored earlier for the same state of the run. */
  function PriorReasons(runs: RunTable, repo: string, run: RunItem): set<Reason>
    requires Positive(run.id).Some?
  {
    var key := (repo, run.id.value);
    if key in runs && runs[key].attempt == Positive(run.attempt) && runs[key].updatedAt == run.updatedAt
    then runs[key].reasons else {}
  }

  /** One transaction of save_job_batch. */
  function SaveBatch(t: Tables, repo: string, run: RunItem, jobs: seq<JobItem>, complete: bool, reasons: set<Reason>)
    : Tables
    requires Positive(run.id).Some?
    requires forall j :: j in jobs ==> Storable(j)
  {
    var id := run.id.value;
    var all := reasons + PriorReasons(t.runs, repo, run);
    Tables(
      Upsert(t.jobs, repo, id, jobs),
      t.runs[(repo, id) := RunRow(Positive(run.attempt), run.updatedAt, all, complete && all == {})])
  }

  /** Only a finished run whose stored row is complete for this very state is skipped. */
  predicate Unchanged(runs: RunTable, repo: string, run: RunItem)
    requires Positive(run.id).Some?
  {
    var key := (repo, run.id.value);
    && run.completed && run.concluded
    && OrEmpty(run.updatedAt) != ""
    && Positive(run.attempt).Some?
    && key in runs && runs[key].complete
    && runs[key].attempt == Positive(run.attempt)
    && runs[key].updatedAt == run.updatedAt
  }

  /** After a batch for one state of a run, the run is skipped if and only if it is listed as concluded
      with that positive attempt and that update marker, and the batch was complete without a reason,
      given or stored earlier for the same state. */
  lemma SkippedAfterSaveIff(t: Tables, repo: string, saved: RunItem, jobs: seq<JobItem>, complete: bool,
                            reasons: set<Reason>, listed: RunItem)
    requires Positive(saved.id).Some? && listed.id == saved.id
    requires forall j :: j in jobs ==> Storable(j)
    ensures var key := (repo, saved.id.value);
            Unchanged(SaveBatch(t, repo, saved, jobs, complete, reasons).runs, repo, listed)
            <==>
              && listed.completed && listed.concluded
              && (exists n: int :: n > 0 && listed.attempt == saved.attempt == Some(n))
              && (exists marker: string :: marker != "" && listed.updatedAt == saved.updatedAt == Some(marker))
              && complete && reasons == {}
              && (key in t.runs && t.runs[key].attempt == saved.attempt && t.runs[key].updatedAt == saved.updatedAt ==>
                    t.runs[key].reasons == {})
  {
    hide Upsert;
    var after := SaveBatch(t, repo, saved, jobs, complete, reasons).runs;
    if Unchanged(after, repo, listed) {
      var n, marker := listed.attempt.value, listed.updatedAt.value;
      assert n > 0 && listed.attempt == saved.attempt == Some(n);
      assert marker != "" && listed.updatedAt == saved.updatedAt == Some(marker);
    }
  }

  function IncompleteRuns(runs: RunTable): nat {
    |set key | key in runs && !runs[key].complete|
  }

  /** A list of jobs leaves no reason exactly when each of its jobs is clean. */
  lemma {:induction false} NoReasonsMeansClean(jobs: seq<JobItem>)
    ensures JobReasons(jobs) == {} <==> forall j :: j in jobs ==> Clean(j)
  {
    if jobs != [] {
      var init, job := jobs[..|jobs| - 1], jobs[|jobs| - 1];
      assert jobs == init + [job];
      NoReasonsMeansClean(init);
      if !Clean(job) {
        assert AttemptInvalid in JobReasons(jobs) || JobIdInvalid in JobReasons(jobs) || PayloadInvalid in JobReasons(jobs);
        assert job in jobs;
      } else {
        assert JobReasons(jobs) == JobReasons(init);
      }
    }
  }

  /** The shared statistics database. */
  class StatsDb {
    var jobs: JobTable
    var runs: RunTable

    constructor ()
      ensures View() == Tables(map[], map[])
    {
      jobs, runs := map[], map[];
    }

    function View(): Tables
      reads this
    {
      Tables(jobs, runs)
    }

    method SaveJobBatch(repo: string, run: RunItem, batch: seq<JobItem>, complete: bool, reasons: set<Reason>)
      requires Positive(run.id).Some?
      requires forall j :: j in batch ==> Storable(j)
      modifies this
      ensures View() == SaveBatch(old(View()), repo, run, batch, complete, reasons)
    {
      var runId := run.id.value;
      var key := (repo, runId);
      var all := reasons;
      if key in runs && runs[key].attempt == Positive(run.attempt) && runs[key].updatedAt == run.updatedAt {
        all := all + runs[key].reasons;
      }
      for i := 0 to |batch|
        invariant runs == old(runs)
        invariant jobs == Upsert(old(jobs), repo, runId, batch[..i])
      {
        assert batch[..i + 1][..i] == batch[..i];
        jobs := jobs[(repo, OrZero(batch[i].id)) := JobRow(runId, Positive(batch[i].attempt), batch[i].payload)];
      }
      assert batch[..|batch|] == batch;
      assert all == reasons + PriorReasons(old(runs), repo, run);
      runs := runs[key := RunRow(Positive(run.attempt), run.updatedAt, all, complete && all == {})];
    }

    method CompletedRunIsUnchanged(repo: string, run: RunItem) returns (r: bool)
      requires Positive(run.id).Some?
      ensures r == Unchanged(runs, repo, run)
    {
      if !run.completed || !run.concluded || OrEmpty(run.updatedAt) == "" || Positive(run.attempt).None? {
        return false;
      }
      var key := (repo, run.id.value);
      r := key in runs && runs[key].complete
           && runs[key].attempt == Positive(run.attempt) && runs[key].updatedAt == run.updatedAt;
    }
  }
}
