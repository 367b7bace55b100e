/** The bounded, resumable collector (backend/job_metrics_collector.py): a cursor over
    repositories, runs and job pages that is advanced under three caps, saved, and resumed. */
module Collector {
  import opened Common
  import opened JobMetrics

  const PAGE_SIZE := 100

  /** The persisted position. The job part names the run state whose pages were being read. */
  datatype Cursor = Cursor(
    repoPage: int, repoOffset: int, runPage: int, runOffset: int,
    jobPage: int, jobRunId: int, jobAttempt: int, jobUpdatedAt: string,
    skipped: set<Reason>)

  const INITIAL := Cursor(1, 0, 1, 0, 1, 0, 0, "", {})

  /** The reasons a cursor may carry from pass to pass. */
  const SKIPS := {RepositoryMissingName, RunIdInvalid}

  datatype Limits = Limits(maxRepos: int, maxRuns: int, maxPages: int)

  predicate LimitsOk(lim: Limits) {
    1 <= lim.maxRepos <= 500 && 1 <= lim.maxRuns <= 2000 && 1 <= lim.maxPages <= 200
  }

  datatype Cap = RepoCap | RunCap | PageCap

  /** A request names the run record it was made for; the wire carries its identifier. */
  datatype Request =
    | GetRepos(page: int)
    | GetRuns(repo: string, page: int)
    | GetJobs(repo: string, run: RunItem, page: int)

  /** A page, a body that is not a page, or an exception of the client. An empty
      repository name stands for a record without one. */
  datatype Response =
    | ReposPage(repos: seq<string>)
    | RunsPage(runs: seq<RunItem>)
    | JobsPage(jobs: seq<JobItem>)
    | Malformed
    | RateLimited(retryAfter: int)
    | AuthError
    | RequestFailed

  predicate Raises(r: Response) {
    r.RateLimited? || r.AuthError? || r.RequestFailed?
  }

  /** GitHub: the answer to the t-th request ever made. */
  type GitHub = (nat, Request) -> Response

  /** The state of a run that its job pages belong to. */
  datatype Ident = Ident(id: int, attempt: int, updatedAt: string)

  function RunIdent(run: RunItem): Ident {
    Ident(OrZero(run.id), OrZero(Positive(run.attempt)), OrEmpty(run.updatedAt))
  }

  function RowIdent(id: int, row: RunRow): Ident {
    Ident(id, OrZero(row.attempt), OrEmpty(row.updatedAt))
  }

  function CursorIdent(c: Cursor): Ident {
    Ident(c.jobRunId, c.jobAttempt, c.jobUpdatedAt)
  }

  // ---------------------------------------------------------------- cursor moves

  function ResetJobs(c: Cursor): Cursor {
    c.(jobPage := 1, jobRunId := 0, jobAttempt := 0, jobUpdatedAt := "")
  }

  /** The cursor after the repository it stands on; true when that leaves the page. */
  function NextRepo(c: Cursor, count: nat): (Cursor, bool) {
    var c1 := c.(repoOffset := c.repoOffset + 1, runPage := 1, runOffset := 0);
    if c1.repoOffset >= count && count == PAGE_SIZE
    then (c1.(repoPage := c1.repoPage + 1, repoOffset := 0), true)
    else (c1, false)
  }

  function AdvanceRun(c: Cursor, count: nat): (Cursor, bool) {
    var c1 := ResetJobs(c.(runOffset := c.runOffset + 1));
    if c1.runOffset >= count && count == PAGE_SIZE
    then (c1.(runPage := c1.runPage + 1, runOffset := 0), true)
    else (c1, false)
  }

  /** Resume at the saved page only when the cursor still names this exact run state. */
  function ResumeJobPage(c: Cursor, run: RunItem): (Cursor, int) {
    if CursorIdent(c) == RunIdent(run) then (c, Max(1, c.jobPage))
    else
      (c.(jobPage := 1, jobRunId := RunIdent(run).id, jobAttempt := RunIdent(run).attempt,
          jobUpdatedAt := RunIdent(run).updatedAt), 1)
  }

  // ---------------------------------------------------------------- reading job pages

  datatype Fetched =
    | Fetched(jobs: seq<JobItem>, done: bool, nextPage: int, pages: int, t: nat, problem: Option<Reason>)
    | Raised(error: Response, t: nat)

  /** Read job pages from `page` until a short page, a bad page, an exception or the budget. */
  function FetchJobs(gh: GitHub, t: nat, repo: string, run: RunItem, page: int, pages: int, budget: int): (f: Fetched)
    ensures f.Raised? ==> Raises(f.error)
    ensures f.t >= t
    ensures pages < budget ==> f.t > t && f.t - t <= budget - pages
    ensures f.Fetched? ==> f.pages - pages == f.t - t
    ensures f.Fetched? && pages <= budget ==> f.pages <= budget
    ensures f.Fetched? ==> page <= f.nextPage
    decreases budget - pages
  {
    if pages >= budget then Fetched([], false, page, pages, t, Some(PageCapReason))
    else
      var r := gh(t, GetJobs(repo, run, page));
      if Raises(r) then Raised(r, t + 1)
      else if !r.JobsPage? then Fetched([], false, page, pages + 1, t + 1, Some(MalformedJobsPage))
      else if |r.jobs| < PAGE_SIZE then Fetched(r.jobs, true, page + 1, pages + 1, t + 1, None)
      else
        match FetchJobs(gh, t + 1, repo, run, page + 1, pages + 1, budget)
        case Raised(e, t') => Raised(e, t')
        case Fetched(jobs, done, next, p, t', problem) => Fetched(r.jobs + jobs, done, next, p, t', problem)
  }

  // ---------------------------------------------------------------- one pass

  /** The local variables of a pass, and the tables it writes. */
  datatype Loop = Loop(
    cursor: Cursor, tables: Tables, t: nat,
    pages: int, repoCount: int, runCount: int, jobCount: int,
    repos: seq<string>, reposLoaded: bool,
    runs: seq<RunItem>, runsRepo: Option<string>, runsLoaded: bool,
    skipped: set<Reason>, partial: set<Reason>, caps: set<Cap>,
    retryAfter: Option<int>, complete: bool)

  /** `continue` with the next iteration, or `break`. */
  datatype Next = Again(s: Loop) | Stop(s: Loop)

  function OnRaise(s: Loop, e: Response): Next {
    Stop(match e
         case RateLimited(after) => s.(partial := s.partial + {RateLimitedReason}, retryAfter := Some(Max(0, after)))
         case AuthError => s.(partial := s.partial + {AuthUnavailable})
         case _ => s.(partial := s.partial + {RequestFailedReason}))
  }

  /** Leave the current run: the run page is dropped when it is exhausted and was full. */
  function PastRun(s: Loop): Loop {
    var (c, leaves) := AdvanceRun(s.cursor, |s.runs|);
    if leaves
    then s.(cursor := c, runCount := s.runCount + 1, runsRepo := None, runsLoaded := false)
    else s.(cursor := c, runCount := s.runCount + 1)
  }

  /** What a read writes: its storable jobs and the run row, or after a rate limit only the row. */
  function StoreFetched(tables: Tables, repo: string, run: RunItem, f: Fetched): Tables
    requires Positive(run.id).Some?
  {
    match f
    case Raised(e, _) => if e.RateLimited? then SaveBatch(tables, repo, run, [], false, {}) else tables
    case Fetched(jobs, done, _, _, _, problem) =>
      var reasons := JobReasons(jobs);
      var malformed := if problem == Some(MalformedJobsPage) then {MalformedJobsPage} else {};
      SaveBatch(tables, repo, run, StorableJobs(jobs), done && reasons == {}, reasons + malformed)
  }

  /** How the pass goes on after a read whose results are stored. */
  function Settle(s: Loop, run: RunItem, f: Fetched): Next {
    match f
    case Raised(e, _) => OnRaise(s, e)
    case Fetched(jobs, done, next, pages, _, problem) =>
      var s1 := s.(pages := pages, jobCount := s.jobCount + |StorableJobs(jobs)|, partial := s.partial + JobReasons(jobs));
      if done then Again(PastRun(s1))
      else if problem == Some(PageCapReason) then
        Stop(s1.(partial := s1.partial + {PageCapReason}, caps := s1.caps + {PageCap},
                 cursor := s.cursor.(jobPage := next, jobRunId := RunIdent(run).id, jobAttempt := RunIdent(run).attempt,
                                     jobUpdatedAt := RunIdent(run).updatedAt)))
      else Stop(s1.(partial := s1.partial + {MalformedJobsPage}))
  }

  /** Read a run's jobs from the resume page on and store them. */
  function CollectRun(gh: GitHub, lim: Limits, s: Loop, repo: string, run: RunItem): Next
    requires Positive(run.id).Some?
  {
    var (c, start) := ResumeJobPage(s.cursor, run);
    var f := FetchJobs(gh, s.t, repo, run, start, s.pages, lim.maxPages);
    Settle(s.(cursor := c, t := f.t, tables := StoreFetched(s.tables, repo, run, f)), run, f)
  }

  /** The part of an iteration that runs once a run page of `repo` is loaded. */
  function AtRuns(gh: GitHub, lim: Limits, s: Loop, repo: string): Next
    requires s.cursor.runOffset >= 0
  {
    if s.cursor.runOffset >= |s.runs| then
      if |s.runs| < PAGE_SIZE then
        var (c, leaves) := NextRepo(s.cursor, |s.repos|);
        Again(s.(cursor := c, repoCount := s.repoCount + 1, runsRepo := None, runsLoaded := false,
                 reposLoaded := s.reposLoaded && !leaves))
      else
        Again(s.(cursor := s.cursor.(runPage := s.cursor.runPage + 1, runOffset := 0),
                 runsRepo := None, runsLoaded := false))
    else if s.runCount >= lim.maxRuns then Stop(s.(caps := s.caps + {RunCap}))
    else
      var run := s.runs[s.cursor.runOffset];
      if Positive(run.id).None? then
        Again(PastRun(s.(partial := s.partial + {RunIdInvalid}, skipped := s.skipped + {RunIdInvalid})))
      else if Unchanged(s.tables.runs, repo, run) then Again(PastRun(s))
      else if s.pages >= lim.maxPages then Stop(s.(caps := s.caps + {PageCap}))
      else CollectRun(gh, lim, s, repo, run)
  }

  /** The part of an iteration that runs once a repository page is loaded. */
  function AtRepos(gh: GitHub, lim: Limits, s: Loop): Next
    requires s.cursor.repoOffset >= 0 && s.cursor.runOffset >= 0
  {
    if s.cursor.repoOffset >= |s.repos| then
      if |s.repos| < PAGE_SIZE then Stop(s.(cursor := INITIAL, complete := true))
      else
        Again(s.(cursor := s.cursor.(repoPage := s.cursor.repoPage + 1, repoOffset := 0), reposLoaded := false))
    else if s.repoCount >= lim.maxRepos then Stop(s.(caps := s.caps + {RepoCap}))
    else
      var repo := s.repos[s.cursor.repoOffset];
      if repo == "" then
        var (c, leaves) := NextRepo(s.cursor, |s.repos|);
        Again(s.(cursor := c, repoCount := s.repoCount + 1, reposLoaded := s.reposLoaded && !leaves,
                 partial := s.partial + {RepositoryMissingName}, skipped := s.skipped + {RepositoryMissingName}))
      else if s.runsLoaded && s.runsRepo == Some(repo) then AtRuns(gh, lim, s, repo)
      else if s.pages >= lim.maxPages then Stop(s.(caps := s.caps + {PageCap}))
      else
        var r := gh(s.t, GetRuns(repo, s.cursor.runPage));
        if Raises(r) then OnRaise(s.(t := s.t + 1), r)
        else if !r.RunsPage? then
          Stop(s.(t := s.t + 1, pages := s.pages + 1, runs := [], partial := s.partial + {MalformedRunsPage}))
        else
          AtRuns(gh, lim, s.(t := s.t + 1, pages := s.pages + 1, runs := r.runs, runsRepo := Some(repo),
                             runsLoaded := true), repo)
  }

  /** One iteration of the loop. */
  function Iterate(gh: GitHub, lim: Limits, s: Loop): Next
    requires s.cursor.repoOffset >= 0 && s.cursor.runOffset >= 0
  {
    if s.reposLoaded then AtRepos(gh, lim, s)
    else
      var r := gh(s.t, GetRepos(s.cursor.repoPage));
      if Raises(r) then OnRaise(s.(t := s.t + 1), r)
      else if !r.ReposPage? then
        Stop(s.(t := s.t + 1, pages := s.pages + 1, partial := s.partial + {MalformedRepositoriesPage}))
      else AtRepos(gh, lim, s.(t := s.t + 1, pages := s.pages + 1, repos := r.repos, reposLoaded := true))
  }

  /** What every iteration keeps: the counters within their caps, and loaded run pages
      belonging to the repository under the cursor. */
  predicate InBounds(lim: Limits, s: Loop) {
    && 1 <= s.cursor.repoPage && 0 <= s.cursor.repoOffset
    && 1 <= s.cursor.runPage && 0 <= s.cursor.runOffset
    && 1 <= s.cursor.jobPage && 0 <= s.cursor.jobRunId && 0 <= s.cursor.jobAttempt
    && s.skipped <= SKIPS && s.cursor.skipped <= SKIPS
    && 0 <= s.pages <= lim.maxPages
    && 0 <= s.repoCount <= lim.maxRepos
    && 0 <= s.runCount <= lim.maxRuns
    && (s.runsLoaded ==>
          && s.reposLoaded && s.cursor.repoOffset < |s.repos|
          && s.repos[s.cursor.repoOffset] != ""
          && s.runsRepo == Some(s.repos[s.cursor.repoOffset]))
  }

  /** The iterations a pass can still make. */
  function Fuel(lim: Limits, s: Loop): int {
    3 * (lim.maxPages - s.pages) + (lim.maxRepos - s.repoCount) + (lim.maxRuns - s.runCount)
    + (if s.reposLoaded then 1 else 0) + (if s.runsLoaded then 1 else 0)
  }

  /** A step stays in bounds, spends as many requests as it counts pages unless it
      stops, and uses up fuel unless it stops. */
  predicate Bounded(lim: Limits, s: Loop, n: Next) {
    && InBounds(lim, n.s)
    && s.t <= n.s.t <= s.t + lim.maxPages - s.pages
    && (n.Again? ==> Fuel(lim, n.s) < Fuel(lim, s) && n.s.t - s.t == n.s.pages - s.pages)
  }

  lemma CollectRunBounded(gh: GitHub, lim: Limits, s: Loop, repo: string, run: RunItem)
    requires LimitsOk(lim) && InBounds(lim, s) && s.pages < lim.maxPages && s.runCount < lim.maxRuns && s.runsLoaded
    requires Positive(run.id).Some?
    ensures Bounded(lim, s, CollectRun(gh, lim, s, repo, run))
  {
    hide StoreFetched, StorableJobs, JobReasons;
  }

  lemma AtRunsBounded(gh: GitHub, lim: Limits, s: Loop, repo: string)
    requires LimitsOk(lim) && InBounds(lim, s) && s.runsLoaded && s.repoCount < lim.maxRepos
    ensures Bounded(lim, s, AtRuns(gh, lim, s, repo))
  {
    hide CollectRun, Unchanged;
    if s.cursor.runOffset < |s.runs| && s.runCount < lim.maxRuns {
      var run := s.runs[s.cursor.runOffset];
      if Positive(run.id).Some? && !Unchanged(s.tables.runs, repo, run) && s.pages < lim.maxPages {
        CollectRunBounded(gh, lim, s, repo, run);
      }
    }
  }

  lemma AtReposBounded(gh: GitHub, lim: Limits, s: Loop)
    requires LimitsOk(lim) && InBounds(lim, s) && s.reposLoaded
    ensures Bounded(lim, s, AtRepos(gh, lim, s))
  {
    hide AtRuns;
    if s.cursor.repoOffset < |s.repos| && s.repoCount < lim.maxRepos {
      var repo := s.repos[s.cursor.repoOffset];
      if repo != "" {
        if s.runsLoaded && s.runsRepo == Some(repo) {
          AtRunsBounded(gh, lim, s, repo);
        } else if s.pages < lim.maxPages {
          var r := gh(s.t, GetRuns(repo, s.cursor.runPage));
          if r.RunsPage? {
            AtRunsBounded(gh, lim, s.(t := s.t + 1, pages := s.pages + 1, runs := r.runs, runsRepo := Some(repo),
                                      runsLoaded := true), repo);
          }
        }
      }
    }
  }

  lemma IterateBounded(gh: GitHub, lim: Limits, s: Loop)
    requires LimitsOk(lim) && InBounds(lim, s) && s.pages < lim.maxPages
    ensures Bounded(lim, s, Iterate(gh, lim, s))
  {
    hide AtRepos;
    if s.reposLoaded {
      AtReposBounded(gh, lim, s);
    } else {
      var r := gh(s.t, GetRepos(s.cursor.repoPage));
      if r.ReposPage? {
        AtReposBounded(gh, lim, s.(t := s.t + 1, pages := s.pages + 1, repos := r.repos, reposLoaded := true));
      }
    }
  }

  /** The loop of a pass. */
  function RunLoop(gh: GitHub, lim: Limits, s: Loop): Loop
    requires LimitsOk(lim) && InBounds(lim, s)
    decreases Fuel(lim, s)
  {
    if s.pages >= lim.maxPages then s
    else
      IterateBounded(gh, lim, s);
      match Iterate(gh, lim, s)
      case Stop(s') => s'
      case Again(s') => RunLoop(gh, lim, s')
  }

  // ---------------------------------------------------------------- what a pass loads and saves

  /** What persists between passes: the cursor, the tables, and the number of requests
      made so far (the index into the GitHub answers). */
  datatype Saved = Saved(cursor: Cursor, tables: Tables, t: nat)

  datatype Status = Status(
    complete: bool, traversalComplete: bool, incompleteRuns: nat, partial: set<Reason>, caps: set<Cap>,
    pages: int, repositories: int, runs: int, jobs: int, retryAfter: Option<int>)

  datatype Outcome = Outcome(saved: Saved, status: Status)

  predicate CursorOk(c: Cursor) {
    && c.repoPage >= 1 && c.repoOffset >= 0 && c.runPage >= 1 && c.runOffset >= 0
    && c.jobPage >= 1 && c.jobRunId >= 0 && c.jobAttempt >= 0 && c.skipped <= SKIPS
  }

  /** Replace every field that is below its minimum by its initial value. */
  function Sanitize(c: Cursor): (r: Cursor)
    ensures CursorOk(r)
    ensures CursorOk(c) ==> r == c
  {
    Cursor(
      if c.repoPage >= 1 then c.repoPage else 1, Max(0, c.repoOffset),
      if c.runPage >= 1 then c.runPage else 1, Max(0, c.runOffset),
      if c.jobPage >= 1 then c.jobPage else 1, Max(0, c.jobRunId), Max(0, c.jobAttempt),
      c.jobUpdatedAt, if c.skipped <= SKIPS then c.skipped else {})
  }

  function Start(saved: Saved): Loop {
    var c := Sanitize(saved.cursor);
    Loop(c, saved.tables, saved.t, 0, 0, 0, 0, [], false, [], None, false,
         c.skipped, if CursorOk(saved.cursor) then {} else {CursorInvalid}, {}, None, false)
  }

  function Finish(lim: Limits, s: Loop): Outcome {
    var caps := if s.pages >= lim.maxPages && !s.complete then s.caps + {PageCap} else s.caps;
    var partial := s.partial + s.skipped;
    var pending := IncompleteRuns(s.tables.runs);
    Outcome(
      Saved(if s.complete then s.cursor else s.cursor.(skipped := s.skipped), s.tables, s.t),
      Status(s.complete && partial == {} && caps == {} && pending == 0, s.complete, pending, partial, caps,
             s.pages, s.repoCount, s.runCount, s.jobCount, s.retryAfter))
  }

  /** One invocation of the collector. */
  function Pass(gh: GitHub, lim: Limits, saved: Saved): Outcome
    requires LimitsOk(lim)
  {
    Finish(lim, RunLoop(gh, lim, Start(saved)))
  }

  lemma {:induction false} RunLoopBounded(gh: GitHub, lim: Limits, s: Loop)
    requires LimitsOk(lim) && InBounds(lim, s)
    ensures InBounds(lim, RunLoop(gh, lim, s))
    ensures s.t <= RunLoop(gh, lim, s).t <= s.t + lim.maxPages - s.pages
    decreases Fuel(lim, s)
  {
    hide Iterate;
    if s.pages < lim.maxPages {
      IterateBounded(gh, lim, s);
      if Iterate(gh, lim, s).Again? {
        RunLoopBounded(gh, lim, Iterate(gh, lim, s).s);
      }
    }
  }

  /** Whatever GitHub answers, a pass makes at most maxPages requests and takes at most
      maxRepos repository steps and maxRuns run steps. */
  lemma PassStaysWithinCaps(gh: GitHub, lim: Limits, saved: Saved)
    requires LimitsOk(lim)
    ensures saved.t <= Pass(gh, lim, saved).saved.t <= saved.t + lim.maxPages
    ensures Pass(gh, lim, saved).status.pages <= lim.maxPages
    ensures Pass(gh, lim, saved).status.repositories <= lim.maxRepos
    ensures Pass(gh, lim, saved).status.runs <= lim.maxRuns
  {
    hide RunLoop;
    RunLoopBounded(gh, lim, Start(saved));
  }
}
