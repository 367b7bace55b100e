/** "Complete" means complete: whatever the listing does between requests, a run row is
    marked complete only when every job of that run state is stored, even if its pages
    were read over several passes. */
module CollectorSoundness {
  import opened Common
  import opened JobMetrics
  import opened Collector

  /** The jobs of a run state, in the order in which GitHub pages them. */
  type JobLists = (string, Ident) -> seq<JobItem>

  /** The repository a run identifier belongs to. */
  type Homes = int -> string

  function Page<T>(xs: seq<T>, page: int): seq<T>
    requires page >= 1
  {
    var lo := PAGE_SIZE * (page - 1);
    if lo >= |xs| then [] else xs[lo..Min(lo + PAGE_SIZE, |xs|)]
  }

  /** Every job page that arrives is a slice of the job list of its run state. */
  ghost predicate HonestJobs(gh: GitHub, jobsOf: JobLists) {
    forall t: nat, repo, run, page | page >= 1 && gh(t, GetJobs(repo, run, page)).JobsPage? ::
      gh(t, GetJobs(repo, run, page)).jobs == Page(jobsOf(repo, RunIdent(run)), page)
  }

  predicate Belongs(home: Homes, repo: string, run: RunItem) {
    Positive(run.id).Some? ==> home(run.id.value) == repo && run.updatedAt != Some("")
  }

  /** A run identifier is only ever listed under one repository. */
  ghost predicate HonestRuns(gh: GitHub, home: Homes) {
    forall t: nat, repo, page, run |
      page >= 1 && gh(t, GetRuns(repo, page)).RunsPage? && run in gh(t, GetRuns(repo, page)).runs ::
      Belongs(home, repo, run)
  }

  /** Within a repository an identifier names one job of one run. */
  ghost predicate DistinctJobs(jobsOf: JobLists) {
    forall repo, a, b, i, k | 0 <= i < |jobsOf(repo, a)| && 0 <= k < |jobsOf(repo, b)| ::
      Storable(jobsOf(repo, a)[i]) && Storable(jobsOf(repo, b)[k]) && jobsOf(repo, a)[i].id == jobsOf(repo, b)[k].id ==>
        a.id == b.id && (a == b ==> i == k)
  }

  /** The job has a row, and where identifiers are distinct the row holds what the job says. */
  ghost predicate Stored(table: JobTable, jobsOf: JobLists, repo: string, runId: int, j: JobItem) {
    && (repo, OrZero(j.id)) in table
    && (DistinctJobs(jobsOf) ==> table[(repo, OrZero(j.id))] == JobRow(runId, Positive(j.attempt), j.payload))
  }

  /** Every job is clean and stored. */
  ghost predicate AllStored(table: JobTable, jobsOf: JobLists, repo: string, runId: int, jobs: seq<JobItem>) {
    forall j :: j in jobs ==> Clean(j) && Stored(table, jobsOf, repo, runId, j)
  }

  /** Every job that can be stored is stored. */
  ghost predicate ValidStored(table: JobTable, jobsOf: JobLists, repo: string, runId: int, jobs: seq<JobItem>) {
    forall j :: j in jobs && Storable(j) ==> Stored(table, jobsOf, repo, runId, j)
  }

  predicate RowOk(row: RunRow) {
    (row.attempt.Some? ==> row.attempt.value > 0) && row.updatedAt != Some("")
  }

  ghost predicate RowSound(tables: Tables, jobsOf: JobLists, repo: string, id: int)
    requires (repo, id) in tables.runs
  {
    var row := tables.runs[(repo, id)];
    RowOk(row) && (row.complete ==> row.reasons == {} && AllStored(tables.jobs, jobsOf, repo, id, jobsOf(repo, RowIdent(id, row))))
  }

  /** The theorem's conclusion, for all rows. */
  ghost predicate RunsSound(tables: Tables, jobsOf: JobLists) {
    forall repo, id | (repo, id) in tables.runs :: RowSound(tables, jobsOf, repo, id)
  }

  /** The first n jobs of a run state were read: the storable ones are stored, and either
      a reason is on record or all of them are clean. */
  ghost predicate PrefixRead(tables: Tables, jobsOf: JobLists, repo: string, ident: Ident, n: int) {
    var jobs := jobsOf(repo, ident);
    && (repo, ident.id) in tables.runs
    && RowIdent(ident.id, tables.runs[(repo, ident.id)]) == ident
    && 0 <= n <= |jobs|
    && ValidStored(tables.jobs, jobsOf, repo, ident.id, jobs[..n])
    && (tables.runs[(repo, ident.id)].reasons == {} ==> AllStored(tables.jobs, jobsOf, repo, ident.id, jobs[..n]))
  }

  ghost predicate CursorSound(tables: Tables, jobsOf: JobLists, home: Homes, c: Cursor) {
    c.jobPage > 1 ==>
      PrefixRead(tables, jobsOf, home(c.jobRunId), CursorIdent(c), PAGE_SIZE * (c.jobPage - 1))
  }

  ghost predicate LoopSound(jobsOf: JobLists, home: Homes, s: Loop) {
    && RunsSound(s.tables, jobsOf)
    && CursorSound(s.tables, jobsOf, home, s.cursor)
    && (s.runsLoaded ==> s.runsRepo.Some? && forall run :: run in s.runs ==> Belongs(home, s.runsRepo.value, run))
  }

  // ---------------------------------------------------------------- reading pages

  lemma PageIsSlice<T>(xs: seq<T>, page: int)
    requires page >= 1 && PAGE_SIZE * (page - 1) <= |xs|
    ensures |Page(xs, page)| < PAGE_SIZE ==> Page(xs, page) == xs[PAGE_SIZE * (page - 1)..]
    ensures |Page(xs, page)| >= PAGE_SIZE ==>
              PAGE_SIZE * page <= |xs| && Page(xs, page) == xs[PAGE_SIZE * (page - 1)..PAGE_SIZE * page]
  {
  }

  lemma SliceJoin<T>(xs: seq<T>, lo: int, mid: int, hi: int)
    requires 0 <= lo <= mid <= hi <= |xs|
    ensures xs[lo..mid] + xs[mid..hi] == xs[lo..hi]
    ensures xs[lo..mid] + xs[mid..] == xs[lo..]
  {
  }

  /** A read that starts at a page boundary returns exactly the jobs up to the next one,
      and all the remaining jobs when it reports the end. */
  lemma {:induction false} FetchReadsSlice(
    gh: GitHub, jobsOf: JobLists, t: nat, repo: string, run: RunItem, page: int, pages: int, budget: int)
    requires HonestJobs(gh, jobsOf)
    requires page >= 1 && PAGE_SIZE * (page - 1) <= |jobsOf(repo, RunIdent(run))|
    ensures var xs := jobsOf(repo, RunIdent(run));
            var f := FetchJobs(gh, t, repo, run, page, pages, budget);
            f.Fetched? ==>
              && page <= f.nextPage
              && (f.done ==> f.jobs == xs[PAGE_SIZE * (page - 1)..])
              && (!f.done ==> PAGE_SIZE * (f.nextPage - 1) <= |xs|
                              && f.jobs == xs[PAGE_SIZE * (page - 1)..PAGE_SIZE * (f.nextPage - 1)])
    decreases budget - pages
  {
    var xs := jobsOf(repo, RunIdent(run));
    var lo, mid := PAGE_SIZE * (page - 1), PAGE_SIZE * page;
    if pages < budget {
      var r := gh(t, GetJobs(repo, run, page));
      if r.JobsPage? {
        assert r.jobs == Page(xs, page);
        PageIsSlice(xs, page);
        hide Page, HonestJobs;
        if |r.jobs| >= PAGE_SIZE {
          FetchReadsSlice(gh, jobsOf, t + 1, repo, run, page + 1, pages + 1, budget);
          var rest := FetchJobs(gh, t + 1, repo, run, page + 1, pages + 1, budget);
          if rest.Fetched? {
            SliceJoin(xs, lo, mid, if rest.done then |xs| else PAGE_SIZE * (rest.nextPage - 1));
          }
        }
      }
    }
  }

  // ---------------------------------------------------------------- saving a batch

  /** A batch of a run state is stored afterwards, and what was stored of the same state or of
      other runs is stored as it was. */
  lemma BatchIsStored(
    table: JobTable, jobsOf: JobLists, repo: string, a: Ident, batch: seq<JobItem>, r: string, b: Ident, j: JobItem)
    requires forall x :: x in batch ==> Storable(x) && x in jobsOf(repo, a)
    requires Storable(j) && j in jobsOf(r, b) && (r == repo && a.id == b.id ==> a == b)
    requires Stored(table, jobsOf, r, b.id, j) || (r == repo && a == b && j in batch)
    ensures Stored(Upsert(table, repo, a.id, batch), jobsOf, r, b.id, j)
  {
    hide Upsert;
    UpsertWritesTheLast(table, repo, a.id, batch, r, OrZero(j.id));
    if r == repo && LastWith(batch, OrZero(j.id)).Some? && DistinctJobs(jobsOf) {
      var x := LastWith(batch, OrZero(j.id)).value;
      assert x in batch;
      SameIdSameJob(jobsOf, repo, a, b, x, j);
    }
  }

  lemma SameIdSameJob(jobsOf: JobLists, repo: string, a: Ident, b: Ident, x: JobItem, y: JobItem)
    requires DistinctJobs(jobsOf) && x in jobsOf(repo, a) && y in jobsOf(repo, b)
    requires Storable(x) && Storable(y) && OrZero(x.id) == OrZero(y.id)
    ensures a.id == b.id && (a == b ==> x == y)
  {
    var i :| 0 <= i < |jobsOf(repo, a)| && jobsOf(repo, a)[i] == x;
    var k :| 0 <= k < |jobsOf(repo, b)| && jobsOf(repo, b)[k] == y;
  }

  lemma StoredStays(
    table: JobTable, jobsOf: JobLists, repo: string, a: Ident, batch: seq<JobItem>, r: string, b: Ident, jobs: seq<JobItem>)
    requires forall x :: x in batch ==> Storable(x) && x in jobsOf(repo, a)
    requires forall j :: j in jobs ==> j in jobsOf(r, b)
    requires r == repo && a.id == b.id ==> a == b
    ensures var after := Upsert(table, repo, a.id, batch);
            && (AllStored(table, jobsOf, r, b.id, jobs) ==> AllStored(after, jobsOf, r, b.id, jobs))
            && (ValidStored(table, jobsOf, r, b.id, jobs) ==> ValidStored(after, jobsOf, r, b.id, jobs))
  {
    hide Stored, Upsert;
    forall j | j in jobs && Storable(j) && Stored(table, jobsOf, r, b.id, j)
      ensures Stored(Upsert(table, repo, a.id, batch), jobsOf, r, b.id, j)
    {
      BatchIsStored(table, jobsOf, repo, a, batch, r, b, j);
    }
  }

  /** A batch leaves the other rows sound, and its own row if "complete" is justified. */
  lemma SaveKeepsSound(
    tables: Tables, jobsOf: JobLists, repo: string, run: RunItem, jobs: seq<JobItem>, complete: bool, reasons: set<Reason>)
    requires RunsSound(tables, jobsOf)
    requires Positive(run.id).Some? && run.updatedAt != Some("")
    requires forall j :: j in jobs ==> Storable(j) && j in jobsOf(repo, RunIdent(run))
    requires var after := SaveBatch(tables, repo, run, jobs, complete, reasons);
             after.runs[(repo, run.id.value)].complete ==>
               AllStored(after.jobs, jobsOf, repo, run.id.value, jobsOf(repo, RunIdent(run)))
    ensures RunsSound(SaveBatch(tables, repo, run, jobs, complete, reasons), jobsOf)
  {
    var after := SaveBatch(tables, repo, run, jobs, complete, reasons);
    forall r, id | (r, id) in after.runs ensures RowSound(after, jobsOf, r, id) {
      if (r, id) == (repo, run.id.value) {
        assert RowIdent(id, after.runs[(r, id)]) == RunIdent(run);
      } else {
        assert RowSound(tables, jobsOf, r, id);
        var ident := RowIdent(id, tables.runs[(r, id)]);
        StoredStays(tables.jobs, jobsOf, repo, RunIdent(run), jobs, r, ident, jobsOf(r, ident));
      }
    }
  }

  /** A slice that is saved is stored, after what was stored before it. */
  lemma SliceStored(tables: Tables, jobsOf: JobLists, repo: string, run: RunItem, n: int, m: int)
    requires Positive(run.id).Some? && 0 <= n <= m <= |jobsOf(repo, RunIdent(run))|
    requires n > 0 ==> ValidStored(tables.jobs, jobsOf, repo, run.id.value, jobsOf(repo, RunIdent(run))[..n])
    ensures var xs := jobsOf(repo, RunIdent(run));
            ValidStored(Upsert(tables.jobs, repo, run.id.value, StorableJobs(xs[n..m])), jobsOf, repo, run.id.value, xs[..m])
  {
    hide Stored, Upsert;
    var xs, ident := jobsOf(repo, RunIdent(run)), RunIdent(run);
    var batch := StorableJobs(xs[n..m]);
    assert xs[..m] == xs[..n] + xs[n..m];
    forall j | j in xs[..m] && Storable(j)
      ensures Stored(Upsert(tables.jobs, repo, run.id.value, batch), jobsOf, repo, run.id.value, j)
    {
      assert j in xs[..n] || j in batch;
      BatchIsStored(tables.jobs, jobsOf, repo, ident, batch, repo, ident, j);
    }
  }

  /** Reading on from a sound prefix: after the batch for jobs[n..m] is saved, the first
      m jobs are read, and "complete" with m at the end of the list is justified. */
  lemma SaveExtendsPrefix(
    tables: Tables, jobsOf: JobLists, repo: string, run: RunItem, n: int, m: int, complete: bool, extra: set<Reason>)
    requires RunsSound(tables, jobsOf)
    requires Positive(run.id).Some? && run.updatedAt != Some("")
    requires 0 <= n <= m <= |jobsOf(repo, RunIdent(run))|
    requires n > 0 ==> PrefixRead(tables, jobsOf, repo, RunIdent(run), n)
    requires complete ==> m == |jobsOf(repo, RunIdent(run))|
    ensures var xs := jobsOf(repo, RunIdent(run));
            var batch := xs[n..m];
            var after := SaveBatch(tables, repo, run, StorableJobs(batch), complete, JobReasons(batch) + extra);
            RunsSound(after, jobsOf) && PrefixRead(after, jobsOf, repo, RunIdent(run), m)
  {
    var xs := jobsOf(repo, RunIdent(run));
    var batch := xs[n..m];
    var reasons := JobReasons(batch) + extra;
    var after := SaveBatch(tables, repo, run, StorableJobs(batch), complete, reasons);
    var row := after.runs[(repo, run.id.value)];
    assert xs[..m] == xs[..n] + batch;
    assert forall j :: j in batch ==> j in xs;
    SliceStored(tables, jobsOf, repo, run, n, m);
    if row.reasons == {} {
      NoReasonsMeansClean(batch);
      if n > 0 {
        assert RowSound(tables, jobsOf, repo, run.id.value);
        assert tables.runs[(repo, run.id.value)].reasons == {};
      }
      assert AllStored(after.jobs, jobsOf, repo, run.id.value, xs[..m]);
    }
    assert xs[..|xs|] == xs;
    SaveKeepsSound(tables, jobsOf, repo, run, StorableJobs(batch), complete, reasons);
  }

  // ---------------------------------------------------------------- one iteration

  /** Where reading resumes, everything before it was read. */
  lemma ResumeSound(tables: Tables, jobsOf: JobLists, home: Homes, c: Cursor, repo: string, run: RunItem)
    requires CursorSound(tables, jobsOf, home, c)
    requires Positive(run.id).Some? && Belongs(home, repo, run)
    ensures var (c1, start) := ResumeJobPage(c, run);
            && start >= 1
            && CursorSound(tables, jobsOf, home, c1)
            && CursorIdent(c1) == RunIdent(run) && start == Max(1, c1.jobPage)
            && c1 == c.(jobPage := c1.jobPage, jobRunId := c1.jobRunId, jobAttempt := c1.jobAttempt,
                        jobUpdatedAt := c1.jobUpdatedAt)
            && (start > 1 ==> PrefixRead(tables, jobsOf, repo, RunIdent(run), PAGE_SIZE * (start - 1)))
  {
  }

  /** An exception in the middle of a run stores no job and keeps what was read. */
  lemma RateLimitSound(
    tables: Tables, jobsOf: JobLists, home: Homes, c: Cursor, repo: string, run: RunItem, start: int, f: Fetched)
    requires RunsSound(tables, jobsOf) && Positive(run.id).Some? && Belongs(home, repo, run) && f.Raised?
    requires start >= 1 && CursorIdent(c) == RunIdent(run) && start == Max(1, c.jobPage)
    requires start > 1 ==> PrefixRead(tables, jobsOf, repo, RunIdent(run), PAGE_SIZE * (start - 1))
    ensures var after := StoreFetched(tables, repo, run, f);
            RunsSound(after, jobsOf) && CursorSound(after, jobsOf, home, c)
  {
    hide SaveBatch, RunsSound;
    var xs := jobsOf(repo, RunIdent(run));
    var n := PAGE_SIZE * (start - 1);
    PrefixLength(tables, jobsOf, repo, RunIdent(run), start);
    hide PrefixRead;
    assert xs[n..n] == [];
    EmptyBatch();
    assert JobReasons(xs[n..n]) + {} == {};
    SaveExtendsPrefix(tables, jobsOf, repo, run, n, n, false, {});
  }

  /** A read that returned pages leaves the prefix up to the next page read. */
  lemma BatchSound(
    gh: GitHub, tables: Tables, jobsOf: JobLists, repo: string, run: RunItem, start: int, t: nat, pages: int, budget: int)
    requires HonestJobs(gh, jobsOf) && RunsSound(tables, jobsOf)
    requires Positive(run.id).Some? && run.updatedAt != Some("") && start >= 1
    requires start > 1 ==> PrefixRead(tables, jobsOf, repo, RunIdent(run), PAGE_SIZE * (start - 1))
    requires FetchJobs(gh, t, repo, run, start, pages, budget).Fetched?
    ensures var xs := jobsOf(repo, RunIdent(run));
            var f := FetchJobs(gh, t, repo, run, start, pages, budget);
            var after := StoreFetched(tables, repo, run, f);
            && RunsSound(after, jobsOf)
            && (f.done ==> PrefixRead(after, jobsOf, repo, RunIdent(run), |xs|))
            && (!f.done ==> PrefixRead(after, jobsOf, repo, RunIdent(run), PAGE_SIZE * (f.nextPage - 1)))
            && (!f.done ==> PrefixRead(after, jobsOf, repo, RunIdent(run), PAGE_SIZE * (start - 1)))
            && (forall j :: j in f.jobs ==> j in xs)
  {
    hide SaveBatch, RunsSound, HonestJobs, StorableJobs, JobReasons, FetchJobs;
    var xs := jobsOf(repo, RunIdent(run));
    PrefixLength(tables, jobsOf, repo, RunIdent(run), start);
    hide PrefixRead;
    FetchReadsSlice(gh, jobsOf, t, repo, run, start, pages, budget);
    var f := FetchJobs(gh, t, repo, run, start, pages, budget);
    var reasons := JobReasons(f.jobs);
    var extra := if f.problem == Some(MalformedJobsPage) then {MalformedJobsPage} else {};
    var n := PAGE_SIZE * (start - 1);
    var m := if f.done then |xs| else PAGE_SIZE * (f.nextPage - 1);
    assert f.jobs == xs[n..m];
    SaveExtendsPrefix(tables, jobsOf, repo, run, n, m, f.done && reasons == {}, extra);
    var after := SaveBatch(tables, repo, run, StorableJobs(f.jobs), f.done && reasons == {}, reasons + extra);
    if !f.done {
      PrefixShrinks(after, jobsOf, repo, RunIdent(run), n, m);
    }
  }

  lemma RaisedRunSound(
    gh: GitHub, lim: Limits, s: Loop, repo: string, run: RunItem, jobsOf: JobLists, home: Homes)
    requires HonestJobs(gh, jobsOf) && LoopSound(jobsOf, home, s)
    requires Positive(run.id).Some? && Belongs(home, repo, run)
    requires FetchJobs(gh, s.t, repo, run, ResumeJobPage(s.cursor, run).1, s.pages, lim.maxPages).Raised?
    ensures LoopSound(jobsOf, home, CollectRun(gh, lim, s, repo, run).s)
  {
    hide StoreFetched, RunsSound, PrefixRead, HonestJobs, StorableJobs, JobReasons, FetchJobs;
    ResumeSound(s.tables, jobsOf, home, s.cursor, repo, run);
    var (c, start) := ResumeJobPage(s.cursor, run);
    RateLimitSound(s.tables, jobsOf, home, c, repo, run, start, FetchJobs(gh, s.t, repo, run, start, s.pages, lim.maxPages));
  }

  lemma FetchedRunSound(
    gh: GitHub, lim: Limits, s: Loop, repo: string, run: RunItem, jobsOf: JobLists, home: Homes)
    requires HonestJobs(gh, jobsOf) && LoopSound(jobsOf, home, s)
    requires Positive(run.id).Some? && Belongs(home, repo, run)
    requires FetchJobs(gh, s.t, repo, run, ResumeJobPage(s.cursor, run).1, s.pages, lim.maxPages).Fetched?
    ensures LoopSound(jobsOf, home, CollectRun(gh, lim, s, repo, run).s)
  {
    hide StoreFetched, RunsSound, PrefixRead, HonestJobs, StorableJobs, JobReasons, FetchJobs;
    ResumeSound(s.tables, jobsOf, home, s.cursor, repo, run);
    var (c, start) := ResumeJobPage(s.cursor, run);
    BatchSound(gh, s.tables, jobsOf, repo, run, start, s.t, s.pages, lim.maxPages);
  }

  lemma CollectRunSound(
    gh: GitHub, lim: Limits, s: Loop, repo: string, run: RunItem, jobsOf: JobLists, home: Homes)
    requires HonestJobs(gh, jobsOf) && LoopSound(jobsOf, home, s)
    requires Positive(run.id).Some? && Belongs(home, repo, run)
    ensures LoopSound(jobsOf, home, CollectRun(gh, lim, s, repo, run).s)
  {
    hide CollectRun, LoopSound, HonestJobs, FetchJobs, ResumeJobPage;
    if FetchJobs(gh, s.t, repo, run, ResumeJobPage(s.cursor, run).1, s.pages, lim.maxPages).Raised? {
      RaisedRunSound(gh, lim, s, repo, run, jobsOf, home);
    } else {
      FetchedRunSound(gh, lim, s, repo, run, jobsOf, home);
    }
  }

  lemma PrefixLength(tables: Tables, jobsOf: JobLists, repo: string, ident: Ident, start: int)
    requires start >= 1
    requires start > 1 ==> PrefixRead(tables, jobsOf, repo, ident, PAGE_SIZE * (start - 1))
    ensures PAGE_SIZE * (start - 1) <= |jobsOf(repo, ident)|
  {
  }

  lemma EmptyBatch()
    ensures JobReasons([]) == {} && StorableJobs([]) == []
  {
  }

  lemma PrefixShrinks(tables: Tables, jobsOf: JobLists, repo: string, ident: Ident, n: int, m: int)
    requires PrefixRead(tables, jobsOf, repo, ident, m) && 0 <= n <= m
    ensures PrefixRead(tables, jobsOf, repo, ident, n)
  {
    var xs := jobsOf(repo, ident);
    assert forall j :: j in xs[..n] ==> j in xs[..m];
  }

  lemma AtRunsSound(gh: GitHub, lim: Limits, s: Loop, repo: string, jobsOf: JobLists, home: Homes)
    requires HonestJobs(gh, jobsOf) && LoopSound(jobsOf, home, s)
    requires s.cursor.runOffset >= 0 && s.runsLoaded && s.runsRepo == Some(repo)
    ensures LoopSound(jobsOf, home, AtRuns(gh, lim, s, repo).s)
  {
    hide CollectRun, RunsSound, PrefixRead, HonestJobs, Unchanged;
    if s.cursor.runOffset < |s.runs| {
      var run := s.runs[s.cursor.runOffset];
      assert run in s.runs;
      if Positive(run.id).Some? {
        CollectRunSound(gh, lim, s, repo, run, jobsOf, home);
      }
    }
  }

  lemma AtReposSound(gh: GitHub, lim: Limits, s: Loop, jobsOf: JobLists, home: Homes)
    requires HonestJobs(gh, jobsOf) && HonestRuns(gh, home) && LoopSound(jobsOf, home, s) && InBounds(lim, s)
    ensures LoopSound(jobsOf, home, AtRepos(gh, lim, s).s)
  {
    hide AtRuns, RunsSound, PrefixRead, HonestJobs;
    if s.cursor.repoOffset < |s.repos| && s.repoCount < lim.maxRepos {
      var repo := s.repos[s.cursor.repoOffset];
      if repo != "" {
        if s.runsLoaded && s.runsRepo == Some(repo) {
          AtRunsSound(gh, lim, s, repo, jobsOf, home);
        } else if s.pages < lim.maxPages {
          var r := gh(s.t, GetRuns(repo, s.cursor.runPage));
          if r.RunsPage? {
            AtRunsSound(gh, lim, s.(t := s.t + 1, pages := s.pages + 1, runs := r.runs, runsRepo := Some(repo),
                                    runsLoaded := true), repo, jobsOf, home);
          }
        }
      }
    }
  }

  lemma IterateSound(gh: GitHub, lim: Limits, s: Loop, jobsOf: JobLists, home: Homes)
    requires HonestJobs(gh, jobsOf) && HonestRuns(gh, home) && LoopSound(jobsOf, home, s)
    requires LimitsOk(lim) && InBounds(lim, s) && s.pages < lim.maxPages
    ensures LoopSound(jobsOf, home, Iterate(gh, lim, s).s)
  {
    hide AtRepos, RunsSound, PrefixRead, HonestJobs, HonestRuns;
    if s.reposLoaded {
      AtReposSound(gh, lim, s, jobsOf, home);
    } else {
      var r := gh(s.t, GetRepos(s.cursor.repoPage));
      if r.ReposPage? {
        AtReposSound(gh, lim, s.(t := s.t + 1, pages := s.pages + 1, repos := r.repos, reposLoaded := true), jobsOf, home);
      }
    }
  }

  // ---------------------------------------------------------------- whole runs

  lemma {:induction false} RunLoopSound(gh: GitHub, lim: Limits, s: Loop, jobsOf: JobLists, home: Homes)
    requires HonestJobs(gh, jobsOf) && HonestRuns(gh, home) && LoopSound(jobsOf, home, s)
    requires LimitsOk(lim) && InBounds(lim, s)
    ensures LoopSound(jobsOf, home, RunLoop(gh, lim, s))
    decreases Fuel(lim, s)
  {
    hide Iterate, LoopSound, HonestJobs, HonestRuns;
    if s.pages < lim.maxPages {
      IterateBounded(gh, lim, s);
      IterateSound(gh, lim, s, jobsOf, home);
      if Iterate(gh, lim, s).Again? {
        RunLoopSound(gh, lim, Iterate(gh, lim, s).s, jobsOf, home);
      }
    }
  }

  ghost predicate SavedSound(jobsOf: JobLists, home: Homes, saved: Saved) {
    RunsSound(saved.tables, jobsOf) && CursorSound(saved.tables, jobsOf, home, saved.cursor) && CursorOk(saved.cursor)
  }

  lemma PassKeepsSound(gh: GitHub, lim: Limits, saved: Saved, jobsOf: JobLists, home: Homes)
    requires HonestJobs(gh, jobsOf) && HonestRuns(gh, home) && LimitsOk(lim) && SavedSound(jobsOf, home, saved)
    ensures SavedSound(jobsOf, home, Pass(gh, lim, saved).saved)
  {
    hide RunLoop, RunsSound, PrefixRead, HonestJobs, HonestRuns;
    RunLoopBounded(gh, lim, Start(saved));
    RunLoopSound(gh, lim, Start(saved), jobsOf, home);
  }

  /** Pass after pass, each with its own caps. */
  function PassMany(gh: GitHub, lims: seq<Limits>, saved: Saved): Saved
    requires forall lim :: lim in lims ==> LimitsOk(lim)
  {
    if lims == [] then saved
    else
      assert lims[|lims| - 1] in lims;
      Pass(gh, lims[|lims| - 1], PassMany(gh, lims[..|lims| - 1], saved)).saved
  }

  const FRESH := Saved(INITIAL, Tables(map[], map[]), 0)

  lemma {:induction false} PassesKeepSound(gh: GitHub, lims: seq<Limits>, jobsOf: JobLists, home: Homes)
    requires forall lim :: lim in lims ==> LimitsOk(lim)
    requires HonestJobs(gh, jobsOf) && HonestRuns(gh, home)
    ensures SavedSound(jobsOf, home, PassMany(gh, lims, FRESH))
  {
    hide Pass, HonestJobs, HonestRuns;
    if lims != [] {
      PassesKeepSound(gh, lims[..|lims| - 1], jobsOf, home);
      PassKeepsSound(gh, lims[|lims| - 1], PassMany(gh, lims[..|lims| - 1], FRESH), jobsOf, home);
    }
  }

  /** Main result: after any number of passes with any caps, over a listing that may change
      or fail at every request, each row marked complete has every job of its run state
      stored, provided a run identifier is only ever listed under one repository; and if job
      identifiers are distinct there, each of their rows says what the job says. */
  lemma CompleteMeansStored(gh: GitHub, lims: seq<Limits>, jobsOf: JobLists, home: Homes, repo: string, id: int)
    requires forall lim :: lim in lims ==> LimitsOk(lim)
    requires HonestJobs(gh, jobsOf) && HonestRuns(gh, home)
    requires var runs := PassMany(gh, lims, FRESH).tables.runs; (repo, id) in runs && runs[(repo, id)].complete
    ensures var tables := PassMany(gh, lims, FRESH).tables;
            AllStored(tables.jobs, jobsOf, repo, id, jobsOf(repo, RowIdent(id, tables.runs[(repo, id)])))
  {
    PassesKeepSound(gh, lims, jobsOf, home);
    assert RowSound(PassMany(gh, lims, FRESH).tables, jobsOf, repo, id);
  }

  // ---------------------------------------------------------------- the proviso is needed

  const MOVED_RUN := RunItem(Some(7), Some(1), Some("u"), true, true)

  function HundredJobs(): seq<JobItem> {
    seq(PAGE_SIZE, i => JobItem(Some(i + 1), Some(1), true, ""))
  }

  /** A repository with one run of exactly one hundred jobs, renamed after the third request. */
  function RenamingGitHub(): GitHub {
    (t: nat, r: Request) =>
      match r
      case GetRepos(page) => ReposPage(if page == 1 then [if t < 3 then "old" else "new"] else [])
      case GetRuns(repo, page) => RunsPage(if page == 1 then [MOVED_RUN] else [])
      case GetJobs(repo, run, page) => JobsPage(if page >= 1 then Page(HundredJobs(), page) else [])
  }

  const THREE := Limits(1, 1, 3)

  lemma UpsertOnlyHere(table: JobTable, repo: string, runId: int, jobs: seq<JobItem>, other: string, id: int)
    requires forall j :: j in jobs ==> Storable(j)
    requires other != repo && (other, id) !in table
    ensures (other, id) !in Upsert(table, repo, runId, jobs)
  {
  }

  /** The cursor names a run state but not its repository. When a repository is renamed
      between two passes, the second pass resumes at page 2 under the new name and marks
      the row complete, although the jobs of page 1 are stored under the old name only. */
  lemma RenamedRepositoryIsMarkedComplete()
    ensures HonestJobs(RenamingGitHub(), (repo, ident) => HundredJobs())
    ensures var tables := PassMany(RenamingGitHub(), [THREE, THREE], FRESH).tables;
            && ("new", 7) in tables.runs && tables.runs[("new", 7)].complete
            && ("new", 1) !in tables.jobs && HundredJobs()[0].id == Some(1)
  {
    hide Pass;
    var gh := RenamingGitHub();
    FirstPassStopsAtPageTwo();
    SecondPassCompletes(Pass(gh, THREE, FRESH).saved);
    var one, two := [THREE], [THREE, THREE];
    assert one[..|one| - 1] == [] && two[..|two| - 1] == one;
    assert PassMany(gh, one, FRESH) == Pass(gh, THREE, PassMany(gh, [], FRESH)).saved;
    assert PassMany(gh, two, FRESH) == Pass(gh, THREE, PassMany(gh, one, FRESH)).saved;
  }

  lemma FirstPassStopsAtPageTwo()
    ensures var saved := Pass(RenamingGitHub(), THREE, FRESH).saved;
            && saved.t == 3
            && saved.cursor == INITIAL.(jobPage := 2, jobRunId := 7, jobAttempt := 1, jobUpdatedAt := "u")
            && forall id :: ("new", id) !in saved.tables.jobs && ("new", id) !in saved.tables.runs
  {
    var gh := RenamingGitHub();
    var s0 := Start(FRESH);
    var f := FetchJobs(gh, 2, "old", MOVED_RUN, 1, 2, 3);
    assert Page(HundredJobs(), 1) == HundredJobs();
    assert f == Fetched(HundredJobs() + [], false, 2, 3, 3, Some(PageCapReason));
    assert HundredJobs() + [] == HundredJobs();
    forall id ensures ("new", id) !in Upsert(map[], "old", 7, StorableJobs(HundredJobs())) {
      UpsertOnlyHere(map[], "old", 7, StorableJobs(HundredJobs()), "new", id);
    }
    var n := Iterate(gh, THREE, s0);
    assert n.Stop?;
  }

  lemma SecondPassCompletes(saved: Saved)
    requires saved.t == 3
    requires saved.cursor == INITIAL.(jobPage := 2, jobRunId := 7, jobAttempt := 1, jobUpdatedAt := "u")
    requires forall id :: ("new", id) !in saved.tables.jobs && ("new", id) !in saved.tables.runs
    ensures var tables := Pass(RenamingGitHub(), THREE, saved).saved.tables;
            && ("new", 7) in tables.runs && tables.runs[("new", 7)].complete
            && ("new", 1) !in tables.jobs
  {
    var gh := RenamingGitHub();
    var s0 := Start(saved);
    assert Page(HundredJobs(), 2) == [];
    assert FetchJobs(gh, 5, "new", MOVED_RUN, 2, 2, 3) == Fetched([], true, 3, 3, 6, None);
    EmptyBatch();
    var n := Iterate(gh, THREE, s0);
    assert n.Again? && n.s.pages == 3;
    assert RunLoop(gh, THREE, s0) == n.s;
  }

  lemma {:induction false} UpsertAddsOnlyBatch(table: JobTable, repo: string, runId: int, jobs: seq<JobItem>, id: int)
    requires forall j :: j in jobs ==> Storable(j)
    requires (repo, id) !in table && forall j :: j in jobs ==> OrZero(j.id) != id
    ensures (repo, id) !in Upsert(table, repo, runId, jobs)
  {
    if jobs != [] {
      assert jobs == jobs[..|jobs| - 1] + [jobs[|jobs| - 1]];
      UpsertAddsOnlyBatch(table, repo, runId, jobs[..|jobs| - 1], id);
    }
  }

  /** Reading to the end under a new name stores all jobs exactly when it started at page 1. */
  lemma BatchUnderNewName(
    gh: GitHub, tables: Tables, jobsOf: JobLists, repo: string, run: RunItem, start: int, t: nat, pages: int, budget: int)
    requires HonestJobs(gh, jobsOf) && Positive(run.id).Some?
    requires start >= 1 && PAGE_SIZE * (start - 1) <= |jobsOf(repo, RunIdent(run))|
    requires forall j | j in jobsOf(repo, RunIdent(run)) :: (repo, OrZero(j.id)) !in tables.jobs
    requires forall i, j :: 0 <= i < j < |jobsOf(repo, RunIdent(run))| ==>
               OrZero(jobsOf(repo, RunIdent(run))[i].id) != OrZero(jobsOf(repo, RunIdent(run))[j].id)
    requires FetchJobs(gh, t, repo, run, start, pages, budget).Fetched?
    requires FetchJobs(gh, t, repo, run, start, pages, budget).done
    ensures var jobs := FetchJobs(gh, t, repo, run, start, pages, budget).jobs;
            var after := SaveBatch(tables, repo, run, StorableJobs(jobs), JobReasons(jobs) == {}, JobReasons(jobs));
            after.runs[(repo, run.id.value)].complete ==>
              (AllStored(after.jobs, jobsOf, repo, run.id.value, jobsOf(repo, RunIdent(run))) <==> start == 1)
  {
    hide FetchJobs, HonestJobs;
    var xs := jobsOf(repo, RunIdent(run));
    var n := PAGE_SIZE * (start - 1);
    FetchReadsSlice(gh, jobsOf, t, repo, run, start, pages, budget);
    var jobs := FetchJobs(gh, t, repo, run, start, pages, budget).jobs;
    assert jobs == xs[n..];
    NoReasonsMeansClean(jobs);
    if JobReasons(jobs) == {} {
      if start == 1 {
        assert xs[0..|xs|] == xs && xs[0..] == xs && xs[..|xs|] == xs;
        SliceStored(tables, jobsOf, repo, run, 0, |xs|);
      } else {
        assert xs[0] in xs;
        UpsertAddsOnlyBatch(tables.jobs, repo, run.id.value, StorableJobs(jobs), OrZero(xs[0].id));
      }
    }
  }

  /** Main result: the exact condition for a run that has neither a row nor a job under this
      repository name yet, whatever else is stored under it: when a pass's step marks the row
      complete, the jobs of the run are all stored if and only if the cursor did not stand in the
      middle of this very run state. */
  lemma CompleteUnderNewNameIff(gh: GitHub, lim: Limits, s: Loop, jobsOf: JobLists, repo: string, run: RunItem)
    requires HonestJobs(gh, jobsOf) && Positive(run.id).Some?
    requires PAGE_SIZE * (ResumeJobPage(s.cursor, run).1 - 1) <= |jobsOf(repo, RunIdent(run))|
    requires (repo, run.id.value) !in s.tables.runs
    requires forall j | j in jobsOf(repo, RunIdent(run)) :: (repo, OrZero(j.id)) !in s.tables.jobs
    requires forall i, j :: 0 <= i < j < |jobsOf(repo, RunIdent(run))| ==>
               OrZero(jobsOf(repo, RunIdent(run))[i].id) != OrZero(jobsOf(repo, RunIdent(run))[j].id)
    ensures var after := CollectRun(gh, lim, s, repo, run).s.tables;
            (repo, run.id.value) in after.runs && after.runs[(repo, run.id.value)].complete ==>
              (AllStored(after.jobs, jobsOf, repo, run.id.value, jobsOf(repo, RunIdent(run)))
               <==> CursorIdent(s.cursor) != RunIdent(run) || s.cursor.jobPage <= 1)
  {
    var start := ResumeJobPage(s.cursor, run).1;
    var f := FetchJobs(gh, s.t, repo, run, start, s.pages, lim.maxPages);
    StepStores(gh, lim, s, repo, run);
    hide FetchJobs, HonestJobs, JobReasons, StorableJobs, AllStored, SaveBatch, StoreFetched, CollectRun;
    StoredRow(s.tables, repo, run, f);
    if f.Fetched? && f.done {
      BatchUnderNewName(gh, s.tables, jobsOf, repo, run, start, s.t, s.pages, lim.maxPages);
      DoneIsNoProblem(gh, s.t, repo, run, start, s.pages, lim.maxPages);
    }
  }

  lemma StepStores(gh: GitHub, lim: Limits, s: Loop, repo: string, run: RunItem)
    requires Positive(run.id).Some?
    ensures var f := FetchJobs(gh, s.t, repo, run, ResumeJobPage(s.cursor, run).1, s.pages, lim.maxPages);
            CollectRun(gh, lim, s, repo, run).s.tables == StoreFetched(s.tables, repo, run, f)
  {
    hide FetchJobs, JobReasons, StorableJobs, StoreFetched, AdvanceRun;
  }

  /** Only a read to the end can mark a new row complete, and it saves its jobs in one batch. */
  lemma StoredRow(tables: Tables, repo: string, run: RunItem, f: Fetched)
    requires Positive(run.id).Some? && (repo, run.id.value) !in tables.runs
    ensures var after := StoreFetched(tables, repo, run, f);
            if f.Fetched? && f.done && f.problem.None? then
              after == SaveBatch(tables, repo, run, StorableJobs(f.jobs), JobReasons(f.jobs) == {}, JobReasons(f.jobs))
            else (f.Fetched? && f.done) || (repo, run.id.value) !in after.runs || !after.runs[(repo, run.id.value)].complete
  {
    hide JobReasons, StorableJobs, Upsert;
    if f.Fetched? {
      assert JobReasons(f.jobs) + {} == JobReasons(f.jobs);
    }
  }

  lemma {:induction false} DoneIsNoProblem(gh: GitHub, t: nat, repo: string, run: RunItem, page: int, pages: int, budget: int)
    ensures var f := FetchJobs(gh, t, repo, run, page, pages, budget);
            f.Fetched? && f.done ==> f.problem == None
    decreases budget - pages
  {
    if pages < budget {
      DoneIsNoProblem(gh, t + 1, repo, run, page + 1, pages + 1, budget);
    }
  }
}
