/** The collector as it runs: loops over pages and records that update their variables and
    write the database, proved to compute exactly the pass that the other modules reason about. */
module CollectorService {
  import opened Common
  import opened JobMetrics
  import opened Collector

  /** What a read returns when `jobs` were read before it. */
  function Prepend(jobs: seq<JobItem>, f: Fetched): Fetched {
    if f.Raised? then f else f.(jobs := jobs + f.jobs)
  }

  lemma PrependNothing(f: Fetched)
    ensures Prepend([], f) == f
  {
    assert f.Fetched? ==> [] + f.jobs == f.jobs;
  }

  /** One page of a read, with `jobs` read before it. */
  lemma ReadStep(gh: GitHub, t: nat, repo: string, run: RunItem, page: int, pages: int, budget: int, jobs: seq<JobItem>)
    ensures var f := Prepend(jobs, FetchJobs(gh, t, repo, run, page, pages, budget));
            var r := gh(t, GetJobs(repo, run, page));
            if pages >= budget then f == Fetched(jobs, false, page, pages, t, Some(PageCapReason))
            else if Raises(r) then f == Raised(r, t + 1)
            else if !r.JobsPage? then f == Fetched(jobs, false, page, pages + 1, t + 1, Some(MalformedJobsPage))
            else if |r.jobs| < PAGE_SIZE then f == Fetched(jobs + r.jobs, true, page + 1, pages + 1, t + 1, None)
            else f == Prepend(jobs + r.jobs, FetchJobs(gh, t + 1, repo, run, page + 1, pages + 1, budget))
  {
    assert jobs + [] == jobs;
    if pages < budget {
      var r := gh(t, GetJobs(repo, run, page));
      var rest := FetchJobs(gh, t + 1, repo, run, page + 1, pages + 1, budget);
      if r.JobsPage? && rest.Fetched? {
        assert jobs + (r.jobs + rest.jobs) == (jobs + r.jobs) + rest.jobs;
      }
    }
  }

  class JobCollector {
    const db: StatsDb
    var cursor: Cursor
    /** Requests made so far. */
    var t: nat

    constructor ()
      ensures fresh(db) && Snapshot() == Saved(INITIAL, Tables(map[], map[]), 0)
    {
      db := new StatsDb();
      cursor, t := INITIAL, 0;
    }

    ghost function Snapshot(): Saved
      reads this, db
    {
      Saved(cursor, db.View(), t)
    }

    static method ReadJobPages(
      gh: GitHub, start: nat, repo: string, run: RunItem, startPage: int, pageCount: int, budget: int)
      returns (f: Fetched)
      ensures f == FetchJobs(gh, start, repo, run, startPage, pageCount, budget)
    {
      PrependNothing(FetchJobs(gh, start, repo, run, startPage, pageCount, budget));
      hide FetchJobs, Prepend;
      var jobs: seq<JobItem>, page, pages, now := [], startPage, pageCount, start;
      while pages < budget
        invariant Prepend(jobs, FetchJobs(gh, now, repo, run, page, pages, budget))
               == FetchJobs(gh, start, repo, run, startPage, pageCount, budget)
      {
        ReadStep(gh, now, repo, run, page, pages, budget, jobs);
        var payload := gh(now, GetJobs(repo, run, page));
        now := now + 1;
        if Raises(payload) {
          return Raised(payload, now);
        }
        pages := pages + 1;
        if !payload.JobsPage? {
          return Fetched(jobs, false, page, pages, now, Some(MalformedJobsPage));
        }
        jobs := jobs + payload.jobs;
        if |payload.jobs| < PAGE_SIZE {
          return Fetched(jobs, true, page + 1, pages, now, None);
        }
        page := page + 1;
      }
      ReadStep(gh, now, repo, run, page, pages, budget, jobs);
      return Fetched(jobs, false, page, pages, now, Some(PageCapReason));
    }

    /** Split fetched jobs into what is stored and why something is not. */
    static method SortJobs(jobs: seq<JobItem>) returns (valid: seq<JobItem>, reasons: set<Reason>)
      ensures valid == StorableJobs(jobs) && reasons == JobReasons(jobs)
    {
      valid, reasons := [], {};
      for i := 0 to |jobs|
        invariant valid == StorableJobs(jobs[..i]) && reasons == JobReasons(jobs[..i])
      {
        assert jobs[..i + 1][..i] == jobs[..i];
        var job := jobs[i];
        if Positive(job.attempt).None? {
          reasons := reasons + {AttemptInvalid};
        }
        if Positive(job.id).None? {
          reasons := reasons + {JobIdInvalid};
        } else if !job.wellFormed {
          reasons := reasons + {PayloadInvalid};
        } else {
          valid := valid + [job];
        }
        assert JobReasons(jobs[..i + 1]) == reasons;
      }
      assert jobs[..|jobs|] == jobs;
    }

    /** Write what was read: the storable jobs and the run row, in one transaction. */
    method Store(repo: string, run: RunItem, f: Fetched)
      requires Positive(run.id).Some?
      modifies db
      ensures db.View() == StoreFetched(old(db.View()), repo, run, f)
    {
      hide JobReasons, StorableJobs, SaveBatch;
      match f
      case Raised(e, _) =>
        if e.RateLimited? {
          db.SaveJobBatch(repo, run, [], false, {});
        }
      case Fetched(jobs, done, _, _, _, problem) =>
        var valid, reasons := SortJobs(jobs);
        var persistent := reasons;
        if problem == Some(MalformedJobsPage) {
          persistent := persistent + {MalformedJobsPage};
        }
        assert persistent == reasons + (if problem == Some(MalformedJobsPage) then {MalformedJobsPage} else {});
        db.SaveJobBatch(repo, run, valid, done && reasons == {}, persistent);
    }

    method VisitRun(gh: GitHub, lim: Limits, s: Loop, repo: string, run: RunItem) returns (n: Next)
      requires Positive(run.id).Some? && s.tables == db.View()
      modifies db
      ensures n == CollectRun(gh, lim, s, repo, run) && n.s.tables == db.View()
    {
      hide JobReasons, StorableJobs, StoreFetched, AdvanceRun, FetchJobs, ResumeJobPage, RunIdent;
      var (c, start) := ResumeJobPage(s.cursor, run);
      var f := ReadJobPages(gh, s.t, repo, run, start, s.pages, lim.maxPages);
      Store(repo, run, f);
      n := Settle(s.(cursor := c, t := f.t, tables := db.View()), run, f);
    }

    /** One pass. `None` stands for the ValueError on caps out of range. */
    method CollectJobMetrics(gh: GitHub, maxRepos: int, maxRuns: int, maxPages: int) returns (r: Option<Status>)
      modifies this, db
      ensures r.Some? <==> 1 <= maxRepos <= 500 && 1 <= maxRuns <= 2000 && 1 <= maxPages <= 200
      ensures r.None? ==> Snapshot() == old(Snapshot())
      ensures LimitsOk(Limits(maxRepos, maxRuns, maxPages)) ==>
                r.Some? && Outcome(Snapshot(), r.value) == Pass(gh, Limits(maxRepos, maxRuns, maxPages), old(Snapshot()))
    {
      var lim := Limits(maxRepos, maxRuns, maxPages);
      if !LimitsOk(lim) {
        return None;
      }
      var c := Sanitize(cursor);
      var s := Loop(c, db.View(), t, 0, 0, 0, 0, [], false, [], None, false,
                    c.skipped, if CursorOk(cursor) then {} else {CursorInvalid}, {}, None, false);
      ghost var begin := s;
      assert begin == Start(old(Snapshot()));
      while s.pages < maxPages
        invariant s.tables == db.View() && lim == Limits(maxRepos, maxRuns, maxPages)
        invariant InBounds(lim, s)
        invariant RunLoop(gh, lim, s) == RunLoop(gh, lim, begin)
        decreases Fuel(lim, s)
      {
        hide RunLoop, Iterate, InBounds, Fuel;
        IterateBounded(gh, lim, s);
        RunLoopUnfolds(gh, lim, s);
        var n := VisitPage(gh, lim, s);
        s := n.s;
        if n.Stop? {
          break;
        }
      }
      assert s == RunLoop(gh, lim, begin);
      hide RunLoop;
      r := Some(Finish(lim, s).status);
      cursor, t := Finish(lim, s).saved.cursor, s.t;
    }

    /** One iteration: load a repository page unless one is loaded, then visit it. */
    method VisitPage(gh: GitHub, lim: Limits, s: Loop) returns (n: Next)
      requires s.cursor.repoOffset >= 0 && s.cursor.runOffset >= 0 && s.tables == db.View()
      modifies db
      ensures n == Iterate(gh, lim, s) && n.s.tables == db.View()
    {
      hide AtRepos;
      if s.reposLoaded {
        n := VisitRepos(gh, lim, s);
        return;
      }
      var payload := gh(s.t, GetRepos(s.cursor.repoPage));
      if Raises(payload) {
        return OnRaise(s.(t := s.t + 1), payload);
      }
      if !payload.ReposPage? {
        return Stop(s.(t := s.t + 1, pages := s.pages + 1, partial := s.partial + {MalformedRepositoriesPage}));
      }
      n := VisitRepos(gh, lim, s.(t := s.t + 1, pages := s.pages + 1, repos := payload.repos, reposLoaded := true));
    }

    /** The rest of an iteration, once a repository page is loaded. */
    method VisitRepos(gh: GitHub, lim: Limits, s: Loop) returns (n: Next)
      requires s.cursor.repoOffset >= 0 && s.cursor.runOffset >= 0 && s.tables == db.View()
      modifies db
      ensures n == AtRepos(gh, lim, s) && n.s.tables == db.View()
    {
      hide AtRuns, NextRepo;
      if s.cursor.repoOffset >= |s.repos| {
        if |s.repos| < PAGE_SIZE {
          return Stop(s.(cursor := INITIAL, complete := true));
        }
        return Again(s.(cursor := s.cursor.(repoPage := s.cursor.repoPage + 1, repoOffset := 0), reposLoaded := false));
      }
      if s.repoCount >= lim.maxRepos {
        return Stop(s.(caps := s.caps + {RepoCap}));
      }
      var repo := s.repos[s.cursor.repoOffset];
      if repo == "" {
        var (c, leaves) := NextRepo(s.cursor, |s.repos|);
        return Again(s.(cursor := c, repoCount := s.repoCount + 1, reposLoaded := s.reposLoaded && !leaves,
                        partial := s.partial + {RepositoryMissingName}, skipped := s.skipped + {RepositoryMissingName}));
      }
      if s.runsLoaded && s.runsRepo == Some(repo) {
        n := VisitRuns(gh, lim, s, repo);
        return;
      }
      if s.pages >= lim.maxPages {
        return Stop(s.(caps := s.caps + {PageCap}));
      }
      var payload := gh(s.t, GetRuns(repo, s.cursor.runPage));
      if Raises(payload) {
        return OnRaise(s.(t := s.t + 1), payload);
      }
      if !payload.RunsPage? {
        return Stop(s.(t := s.t + 1, pages := s.pages + 1, runs := [], partial := s.partial + {MalformedRunsPage}));
      }
      n := VisitRuns(gh, lim, s.(t := s.t + 1, pages := s.pages + 1, runs := payload.runs, runsRepo := Some(repo),
                                 runsLoaded := true), repo);
    }

    /** The rest of an iteration, once a run page of `repo` is loaded. */
    method VisitRuns(gh: GitHub, lim: Limits, s: Loop, repo: string) returns (n: Next)
      requires s.cursor.runOffset >= 0 && s.tables == db.View()
      modifies db
      ensures n == AtRuns(gh, lim, s, repo) && n.s.tables == db.View()
    {
      hide CollectRun, Unchanged, AdvanceRun, NextRepo;
      if s.cursor.runOffset >= |s.runs| {
        if |s.runs| < PAGE_SIZE {
          var (c, leaves) := NextRepo(s.cursor, |s.repos|);
          return Again(s.(cursor := c, repoCount := s.repoCount + 1, runsRepo := None, runsLoaded := false,
                          reposLoaded := s.reposLoaded && !leaves));
        }
        return Again(s.(cursor := s.cursor.(runPage := s.cursor.runPage + 1, runOffset := 0),
                        runsRepo := None, runsLoaded := false));
      }
      if s.runCount >= lim.maxRuns {
        return Stop(s.(caps := s.caps + {RunCap}));
      }
      var run := s.runs[s.cursor.runOffset];
      if Positive(run.id).None? {
        return Again(PastRun(s.(partial := s.partial + {RunIdInvalid}, skipped := s.skipped + {RunIdInvalid})));
      }
      var known := db.CompletedRunIsUnchanged(repo, run);
      if known {
        return Again(PastRun(s));
      }
      if s.pages >= lim.maxPages {
        return Stop(s.(caps := s.caps + {PageCap}));
      }
      n := VisitRun(gh, lim, s, repo, run);
    }
  }

  lemma RunLoopUnfolds(gh: GitHub, lim: Limits, s: Loop)
    requires LimitsOk(lim) && InBounds(lim, s) && s.pages < lim.maxPages
    requires Bounded(lim, s, Iterate(gh, lim, s))
    ensures RunLoop(gh, lim, s) ==
            if Iterate(gh, lim, s).Stop? then Iterate(gh, lim, s).s else RunLoop(gh, lim, Iterate(gh, lim, s).s)
  {
    hide Iterate;
  }
}
