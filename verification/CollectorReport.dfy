/** What a pass reports about itself (backend/job_metrics_collector.py): why it stopped, how many
    requests it made, and how long GitHub asked it to wait. */
module CollectorReport {
  import opened Common
  import opened JobMetrics
  import opened Collector

  const BAD_PAGES := {MalformedRepositoriesPage, MalformedRunsPage, MalformedJobsPage}

  /** The reasons that end a pass at once. */
  const ENDS_PASS := BAD_PAGES + {RateLimitedReason, AuthUnavailable, RequestFailedReason, PageCapReason}

  /** An exception of the client, as it is reported. */
  predicate Reported(partial: set<Reason>, retryAfter: Option<int>, e: Response) {
    match e
    case RateLimited(after) =>
      partial * ENDS_PASS == {RateLimitedReason} && retryAfter == Some(if after > 0 then after else 0)
    case AuthError => partial * ENDS_PASS == {AuthUnavailable} && retryAfter.None?
    case RequestFailed => partial * ENDS_PASS == {RequestFailedReason} && retryAfter.None?
    case _ => false
  }

  /** The t-th request was answered by an exception, which is reported. */
  ghost predicate RaisedAt(gh: GitHub, t: nat, partial: set<Reason>, retryAfter: Option<int>) {
    exists r :: Raises(gh(t, r)) && Reported(partial, retryAfter, gh(t, r))
  }

  predicate Quiet(s: Loop) {
    s.partial !! ENDS_PASS && s.retryAfter.None?
  }

  /** While the loop runs, nothing has ended it; its requests are its pages. */
  predicate Running(s0: Loop, s: Loop) {
    && Quiet(s) && s.caps == {} && !s.complete && s.t - s0.t == s.pages - s0.pages
    && (CursorInvalid in s.partial <==> CursorInvalid in s0.partial)
  }

  predicate CapMet(lim: Limits, s: Loop) {
    || (Quiet(s) && s.caps == {RepoCap} && s.repoCount >= lim.maxRepos)
    || (Quiet(s) && s.caps == {RunCap} && s.runCount >= lim.maxRuns)
    || (s.partial * ENDS_PASS <= {PageCapReason} && s.retryAfter.None? && s.caps <= {PageCap} && s.pages >= lim.maxPages)
  }

  predicate BadPage(s: Loop) {
    s.caps == {} && s.retryAfter.None? && |s.partial * ENDS_PASS| == 1 && s.partial * ENDS_PASS <= BAD_PAGES
  }

  /** How a loop ends: it went through everything, met a cap or a bad page, or its last request raised,
      and then it may have made more requests than it counts pages. */
  ghost predicate Ended(gh: GitHub, lim: Limits, s0: Loop, s: Loop) {
    && (CursorInvalid in s.partial <==> CursorInvalid in s0.partial)
    && if s.complete then Quiet(s) && s.caps == {} && s.cursor == INITIAL && s.t - s0.t == s.pages - s0.pages
       else
         || ((CapMet(lim, s) || BadPage(s)) && s.t - s0.t == s.pages - s0.pages)
         || (s.caps == {} && s.t - s0.t > s.pages - s0.pages && s.t > 0 && RaisedAt(gh, s.t - 1, s.partial, s.retryAfter))
  }

  lemma {:induction false} JobReasonsStop(jobs: seq<JobItem>)
    ensures JobReasons(jobs) !! ENDS_PASS && CursorInvalid !in JobReasons(jobs)
  {
    if jobs != [] {
      JobReasonsStop(jobs[..|jobs| - 1]);
    }
  }

  ghost predicate Answered(gh: GitHub, t: nat, e: Response) {
    exists r :: gh(t, r) == e
  }

  lemma {:induction false} FetchEnds(gh: GitHub, t: nat, repo: string, run: RunItem, page: int, pages: int, budget: int)
    ensures var f := FetchJobs(gh, t, repo, run, page, pages, budget);
            && (f.Fetched? && !f.done ==> f.problem in {Some(PageCapReason), Some(MalformedJobsPage)})
            && (f.Fetched? && f.problem == Some(PageCapReason) ==> f.pages >= budget)
            && (f.Raised? ==> Answered(gh, f.t - 1, f.error))
    decreases budget - pages
  {
    if pages < budget {
      var r := gh(t, GetJobs(repo, run, page));
      if r.JobsPage? && |r.jobs| >= PAGE_SIZE {
        FetchEnds(gh, t + 1, repo, run, page + 1, pages + 1, budget);
      }
    }
  }

  lemma RaiseEnds(gh: GitHub, lim: Limits, s0: Loop, s: Loop, t: nat, r: Request)
    requires Running(s0, s) && t > s.t && Raises(gh(t - 1, r))
    ensures var n := OnRaise(s.(t := t), gh(t - 1, r)); n.Stop? && Ended(gh, lim, s0, n.s)
  {
    var n := OnRaise(s.(t := t), gh(t - 1, r));
    assert n.s.partial * ENDS_PASS == n.s.partial - s.partial;
    assert Reported(n.s.partial, n.s.retryAfter, gh(t - 1, r));
  }

  lemma CollectRunTells(gh: GitHub, lim: Limits, s0: Loop, s: Loop, repo: string, run: RunItem)
    requires Running(s0, s) && s.pages < lim.maxPages && Positive(run.id).Some?
    ensures var n := CollectRun(gh, lim, s, repo, run);
            if n.Again? then Running(s0, n.s) else Ended(gh, lim, s0, n.s)
  {
    var (c, start) := ResumeJobPage(s.cursor, run);
    var f := FetchJobs(gh, s.t, repo, run, start, s.pages, lim.maxPages);
    FetchEnds(gh, s.t, repo, run, start, s.pages, lim.maxPages);
    hide FetchJobs, JobReasons, StorableJobs, StoreFetched, AdvanceRun, Ended;
    var s1 := s.(cursor := c, t := f.t, tables := StoreFetched(s.tables, repo, run, f));
    if f.Raised? {
      var r :| gh(f.t - 1, r) == f.error;
      RaiseEnds(gh, lim, s0, s1.(t := s.t), f.t, r);
      assert s1.(t := s.t).(t := f.t) == s1;
    } else {
      JobReasonsStop(f.jobs);
      if !f.done {
        StopsHere(gh, lim, s0, CollectRun(gh, lim, s, repo, run).s);
      }
    }
  }

  lemma StopsHere(gh: GitHub, lim: Limits, s0: Loop, s: Loop)
    requires CursorInvalid in s.partial <==> CursorInvalid in s0.partial
    requires !s.complete && s.t - s0.t == s.pages - s0.pages && s.retryAfter.None?
    requires (s.partial * ENDS_PASS == {PageCapReason} && s.caps == {PageCap} && s.pages >= lim.maxPages)
             || (s.caps == {} && exists m :: m in BAD_PAGES && s.partial * ENDS_PASS == {m})
    ensures Ended(gh, lim, s0, s)
  {
    hide RaisedAt;
  }

  lemma AtRunsTells(gh: GitHub, lim: Limits, s0: Loop, s: Loop, repo: string)
    requires Running(s0, s) && s.cursor.runOffset >= 0 && s.pages <= lim.maxPages
    ensures var n := AtRuns(gh, lim, s, repo);
            if n.Again? then Running(s0, n.s) else Ended(gh, lim, s0, n.s)
  {
    hide CollectRun, Unchanged, AdvanceRun, NextRepo, RaisedAt;
    if s.cursor.runOffset < |s.runs| && s.runCount < lim.maxRuns {
      var run := s.runs[s.cursor.runOffset];
      if Positive(run.id).Some? && !Unchanged(s.tables.runs, repo, run) && s.pages < lim.maxPages {
        CollectRunTells(gh, lim, s0, s, repo, run);
      }
    }
  }

  /** The runs of this repository are in memory. */
  predicate RunsHeld(s: Loop, repo: string) {
    s.runsLoaded && s.runsRepo == Some(repo)
  }

  /** A step that neither asks for runs nor goes through them: the end of the listing, a cap, a record
      without a name. */
  predicate StaysAtRepos(lim: Limits, s: Loop)
    requires s.cursor.repoOffset >= 0
  {
    || s.cursor.repoOffset >= |s.repos| || s.repoCount >= lim.maxRepos || s.repos[s.cursor.repoOffset] == ""
    || (s.pages >= lim.maxPages && !RunsHeld(s, s.repos[s.cursor.repoOffset]))
  }

  lemma StillRunning(s0: Loop, s: Loop, s1: Loop)
    requires Running(s0, s) && s1.caps == s.caps && s1.complete == s.complete && s1.retryAfter == s.retryAfter
    requires s1.t - s.t == s1.pages - s.pages && (s1.partial == s.partial || s1.partial == s.partial + {RepositoryMissingName})
    ensures Running(s0, s1)
  {
  }

  lemma CapStops(gh: GitHub, lim: Limits, s0: Loop, s: Loop, s1: Loop)
    requires Running(s0, s)
    requires || (s1 == s.(caps := s.caps + {RepoCap}) && s.repoCount >= lim.maxRepos)
             || (s1 == s.(caps := s.caps + {RunCap}) && s.runCount >= lim.maxRuns)
             || (s1 == s.(caps := s.caps + {PageCap}) && s.pages >= lim.maxPages)
    ensures Ended(gh, lim, s0, s1)
  {
    hide RaisedAt;
  }

  lemma AllDoneStops(gh: GitHub, lim: Limits, s0: Loop, s: Loop)
    requires Running(s0, s)
    ensures Ended(gh, lim, s0, s.(cursor := INITIAL, complete := true))
  {
    hide RaisedAt;
  }

  lemma AtReposStays(gh: GitHub, lim: Limits, s0: Loop, s: Loop)
    requires Running(s0, s) && s.cursor.repoOffset >= 0 && s.cursor.runOffset >= 0 && StaysAtRepos(lim, s)
    ensures var n := AtRepos(gh, lim, s);
            if n.Again? then Running(s0, n.s) else Ended(gh, lim, s0, n.s)
  {
    hide AtRuns, NextRepo, Running, Ended;
    var n := AtRepos(gh, lim, s);
    if n.Again? {
      StillRunning(s0, s, n.s);
    } else if s.cursor.repoOffset >= |s.repos| {
      AllDoneStops(gh, lim, s0, s);
    } else {
      CapStops(gh, lim, s0, s, n.s);
    }
  }

  lemma LoadRunsTells(gh: GitHub, lim: Limits, s0: Loop, s: Loop, repo: string)
    requires Running(s0, s) && s.cursor.runOffset >= 0 && s.pages < lim.maxPages
    ensures var q := GetRuns(repo, s.cursor.runPage);
            var r := gh(s.t, q);
            if Raises(r) then Ended(gh, lim, s0, OnRaise(s.(t := s.t + 1), r).s)
            else if !r.RunsPage? then
              Ended(gh, lim, s0, s.(t := s.t + 1, pages := s.pages + 1, runs := [], partial := s.partial + {MalformedRunsPage}))
            else
              var n := AtRuns(gh, lim, s.(t := s.t + 1, pages := s.pages + 1, runs := r.runs, runsRepo := Some(repo),
                                          runsLoaded := true), repo);
              if n.Again? then Running(s0, n.s) else Ended(gh, lim, s0, n.s)
  {
    hide AtRuns, RaisedAt;
    var q := GetRuns(repo, s.cursor.runPage);
    var r := gh(s.t, q);
    if Raises(r) {
      RaiseEnds(gh, lim, s0, s, s.t + 1, q);
    } else if r.RunsPage? {
      AtRunsTells(gh, lim, s0, s.(t := s.t + 1, pages := s.pages + 1, runs := r.runs, runsRepo := Some(repo),
                                  runsLoaded := true), repo);
    } else {
      StopsHere(gh, lim, s0, s.(t := s.t + 1, pages := s.pages + 1, runs := [], partial := s.partial + {MalformedRunsPage}));
    }
  }

  lemma AtReposTells(gh: GitHub, lim: Limits, s0: Loop, s: Loop)
    requires Running(s0, s) && s.cursor.repoOffset >= 0 && s.cursor.runOffset >= 0 && s.pages <= lim.maxPages
    ensures var n := AtRepos(gh, lim, s);
            if n.Again? then Running(s0, n.s) else Ended(gh, lim, s0, n.s)
  {
    if StaysAtRepos(lim, s) {
      AtReposStays(gh, lim, s0, s);
    } else {
      AtReposGoes(gh, lim, s);
      hide *;
      var repo := s.repos[s.cursor.repoOffset];
      if RunsHeld(s, repo) {
        AtRunsTells(gh, lim, s0, s, repo);
      } else {
        LoadRunsTells(gh, lim, s0, s, repo);
      }
    }
  }

  /** Otherwise it goes to the runs of the repository under the cursor, which it asks for if they are
      not in memory. */
  lemma AtReposGoes(gh: GitHub, lim: Limits, s: Loop)
    requires s.cursor.repoOffset >= 0 && s.cursor.runOffset >= 0 && !StaysAtRepos(lim, s)
    ensures s.cursor.repoOffset < |s.repos|
    ensures var n, repo := AtRepos(gh, lim, s), s.repos[s.cursor.repoOffset];
            if RunsHeld(s, repo) then n == AtRuns(gh, lim, s, repo)
            else
              && s.pages < lim.maxPages
              && var r := gh(s.t, GetRuns(repo, s.cursor.runPage));
                 n == if Raises(r) then OnRaise(s.(t := s.t + 1), r)
                      else if !r.RunsPage? then
                        Stop(s.(t := s.t + 1, pages := s.pages + 1, runs := [], partial := s.partial + {MalformedRunsPage}))
                      else AtRuns(gh, lim, s.(t := s.t + 1, pages := s.pages + 1, runs := r.runs, runsRepo := Some(repo),
                                              runsLoaded := true), repo)
  {
    hide AtRuns, NextRepo, OnRaise, Raises;
  }

  lemma IterateTells(gh: GitHub, lim: Limits, s0: Loop, s: Loop)
    requires Running(s0, s) && InBounds(lim, s) && s.pages < lim.maxPages
    ensures var n := Iterate(gh, lim, s);
            if n.Again? then Running(s0, n.s) else Ended(gh, lim, s0, n.s)
  {
    hide AtRepos, RaisedAt;
    if s.reposLoaded {
      AtReposTells(gh, lim, s0, s);
    } else {
      var q := GetRepos(s.cursor.repoPage);
      var r := gh(s.t, q);
      if Raises(r) {
        RaiseEnds(gh, lim, s0, s, s.t + 1, q);
      } else if r.ReposPage? {
        AtReposTells(gh, lim, s0, s.(t := s.t + 1, pages := s.pages + 1, repos := r.repos, reposLoaded := true));
      } else {
        StopsHere(gh, lim, s0, Iterate(gh, lim, s).s);
      }
    }
  }

  lemma {:induction false} RunLoopTells(gh: GitHub, lim: Limits, s0: Loop, s: Loop)
    requires LimitsOk(lim) && InBounds(lim, s) && Running(s0, s)
    ensures Ended(gh, lim, s0, RunLoop(gh, lim, s))
    decreases Fuel(lim, s)
  {
    hide Iterate, Running;
    if s.pages < lim.maxPages {
      IterateBounded(gh, lim, s);
      IterateTells(gh, lim, s0, s);
      hide Ended;
      if Iterate(gh, lim, s).Again? {
        RunLoopTells(gh, lim, s0, Iterate(gh, lim, s).s);
      }
    } else {
      OutOfPages(gh, lim, s0, s);
    }
  }

  lemma OutOfPages(gh: GitHub, lim: Limits, s0: Loop, s: Loop)
    requires Running(s0, s) && s.pages >= lim.maxPages
    ensures Ended(gh, lim, s0, s)
  {
    hide RaisedAt;
  }

  /** What the final state of a loop says, once its reasons are put together. */
  lemma ReportOf(gh: GitHub, lim: Limits, s0: Loop, s: Loop)
    requires Ended(gh, lim, s0, s) && s.skipped <= SKIPS && s.t >= s0.t && s0.pages == 0
    requires s.pages <= lim.maxPages && s.repoCount <= lim.maxRepos && s.runCount <= lim.maxRuns
    ensures var o := Finish(lim, s);
            var st, ends := o.status, o.status.partial * ENDS_PASS;
            && (RepoCap in st.caps ==> st.repositories == lim.maxRepos && !st.traversalComplete)
            && (RunCap in st.caps ==> st.runs == lim.maxRuns && !st.traversalComplete)
            && (PageCap in st.caps <==> st.pages >= lim.maxPages && !st.traversalComplete)
            && (st.traversalComplete ==> ends == {} && st.caps == {} && st.retryAfter.None? && o.saved.cursor == INITIAL)
            && (!st.traversalComplete ==> st.caps != {} || ends != {})
            && (s.t - s0.t != st.pages ==> s.t - s0.t > st.pages && s.t > 0 && RaisedAt(gh, s.t - 1, s.partial, s.retryAfter))
            && (!(ends <= BAD_PAGES + {PageCapReason}) || st.retryAfter.Some? ==>
                  s.t > 0 && RaisedAt(gh, s.t - 1, s.partial, s.retryAfter))
            && ends == s.partial * ENDS_PASS
            && (CursorInvalid in st.partial <==> CursorInvalid in s0.partial)
  {
    SkipsEndNothing(s.partial, s.skipped);
    EndedSays(gh, lim, s0, s);
    hide Ended, RaisedAt;
  }

  lemma SkipsEndNothing(partial: set<Reason>, skipped: set<Reason>)
    requires skipped <= SKIPS
    ensures (partial + skipped) * ENDS_PASS == partial * ENDS_PASS
    ensures CursorInvalid in partial + skipped <==> CursorInvalid in partial
  {
  }

  lemma EndedSays(gh: GitHub, lim: Limits, s0: Loop, s: Loop)
    requires Ended(gh, lim, s0, s)
    requires s.pages <= lim.maxPages && s.repoCount <= lim.maxRepos && s.runCount <= lim.maxRuns
    ensures var ends := s.partial * ENDS_PASS;
            && (s.complete ==> ends == {} && s.caps == {} && s.retryAfter.None? && s.cursor == INITIAL)
            && (!s.complete ==> s.caps != {} || ends != {} || s.pages >= lim.maxPages)
            && (RepoCap in s.caps ==> s.repoCount == lim.maxRepos && !s.complete)
            && (RunCap in s.caps ==> s.runCount == lim.maxRuns && !s.complete)
            && (PageCap in s.caps ==> s.pages >= lim.maxPages && !s.complete)
            && (s.t - s0.t != s.pages - s0.pages ==>
                  s.t - s0.t > s.pages - s0.pages && s.t > 0 && RaisedAt(gh, s.t - 1, s.partial, s.retryAfter))
            && (!(ends <= BAD_PAGES + {PageCapReason}) || s.retryAfter.Some? ==>
                  s.t > 0 && RaisedAt(gh, s.t - 1, s.partial, s.retryAfter))
            && (CursorInvalid in s.partial <==> CursorInvalid in s0.partial)
  {
    hide RaisedAt;
    if s.t > 0 && RaisedAt(gh, s.t - 1, s.partial, s.retryAfter) {
      RaisedIsReported(gh, s.t - 1, s.partial, s.retryAfter);
    }
  }

  lemma RaisedIsReported(gh: GitHub, t: nat, partial: set<Reason>, retryAfter: Option<int>)
    requires RaisedAt(gh, t, partial, retryAfter)
    ensures partial * ENDS_PASS != {}
  {
  }

  lemma EndOfPass(gh: GitHub, lim: Limits, saved: Saved)
    requires LimitsOk(lim)
    ensures var s0 := Start(saved);
            var s := RunLoop(gh, lim, s0);
            && Ended(gh, lim, s0, s) && s0.skipped <= s.skipped <= SKIPS && s.t >= s0.t && s0.pages == 0 && s0.t == saved.t
            && s.pages <= lim.maxPages && s.repoCount <= lim.maxRepos && s.runCount <= lim.maxRuns
            && Pass(gh, lim, saved) == Finish(lim, s)
            && (CursorInvalid in s0.partial <==> !CursorOk(saved.cursor))
            && (CursorOk(saved.cursor) ==> s0.skipped == saved.cursor.skipped)
  {
    var s0 := Start(saved);
    StartRuns(saved);
    RunLoopBounded(gh, lim, s0);
    RunLoopTells(gh, lim, s0, s0);
    RunLoopSkips(gh, lim, s0);
    hide RunLoop, Ended, Running;
  }

  /** Main result: what a pass reports. It went through everything exactly when it met no cap, no bad
      page and no exception; otherwise it names the cap, and then its count is at the cap, or the kind
      of page, or the exception that its last request raised, with the seconds to wait. Its pages are
      its requests unless one raised. A cursor out of range and records skipped earlier in the cycle
      are reported, too. */
  lemma PassReports(gh: GitHub, lim: Limits, saved: Saved)
    requires LimitsOk(lim)
    ensures var o := Pass(gh, lim, saved);
            var st, ends := o.status, o.status.partial * ENDS_PASS;
            && (RepoCap in st.caps ==> st.repositories == lim.maxRepos && !st.traversalComplete)
            && (RunCap in st.caps ==> st.runs == lim.maxRuns && !st.traversalComplete)
            && (PageCap in st.caps <==> st.pages >= lim.maxPages && !st.traversalComplete)
            && (st.traversalComplete <==> st.caps == {} && ends == {})
            && (st.traversalComplete ==> st.retryAfter.None? && o.saved.cursor == INITIAL)
            && (!(ends <= BAD_PAGES + {PageCapReason}) || st.retryAfter.Some? || o.saved.t - saved.t != st.pages ==>
                  o.saved.t - saved.t >= st.pages && o.saved.t > 0
                  && RaisedAt(gh, o.saved.t - 1, st.partial, st.retryAfter))
            && (CursorInvalid in st.partial <==> !CursorOk(saved.cursor))
            && (CursorOk(saved.cursor) ==> saved.cursor.skipped <= st.partial)
  {
    EndOfPass(gh, lim, saved);
    var s0 := Start(saved);
    var s := RunLoop(gh, lim, s0);
    hide *;
    ReportOf(gh, lim, s0, s);
    var st := Pass(gh, lim, saved).status;
    if s.t > 0 {
      SameReport(gh, s.t - 1, s.partial, st.partial, s.retryAfter);
    }
    FinishKeeps(lim, s);
  }

  lemma FinishKeeps(lim: Limits, s: Loop)
    ensures var o := Finish(lim, s);
            o.saved.t == s.t && o.status.retryAfter == s.retryAfter && s.skipped <= o.status.partial
  {
  }

  lemma SameReport(gh: GitHub, t: nat, a: set<Reason>, b: set<Reason>, retryAfter: Option<int>)
    requires a * ENDS_PASS == b * ENDS_PASS
    ensures RaisedAt(gh, t, a, retryAfter) <==> RaisedAt(gh, t, b, retryAfter)
  {
    assert forall e :: Reported(a, retryAfter, e) <==> Reported(b, retryAfter, e);
    hide Reported;
  }

  lemma StartRuns(saved: Saved)
    ensures Running(Start(saved), Start(saved))
  {
  }

  lemma {:induction false} RunLoopSkips(gh: GitHub, lim: Limits, s: Loop)
    requires LimitsOk(lim) && InBounds(lim, s)
    ensures s.skipped <= RunLoop(gh, lim, s).skipped
    decreases Fuel(lim, s)
  {
    hide Iterate;
    if s.pages < lim.maxPages {
      IterateBounded(gh, lim, s);
      IterateSkips(gh, lim, s);
      if Iterate(gh, lim, s).Again? {
        RunLoopSkips(gh, lim, Iterate(gh, lim, s).s);
      }
    }
  }

  lemma CollectRunKeeps(gh: GitHub, lim: Limits, s: Loop, repo: string, run: RunItem)
    requires Positive(run.id).Some? && s.pages <= lim.maxPages
    ensures var n := CollectRun(gh, lim, s, repo, run).s;
            && n.repos == s.repos && n.runs == s.runs && n.repoCount == s.repoCount && n.skipped == s.skipped
            && n.complete == s.complete && n.t >= s.t
  {
    hide FetchJobs, JobReasons, StorableJobs, StoreFetched, AdvanceRun, ResumeJobPage;
  }

  /** What every step at the runs of a repository keeps. */
  lemma AtRunsKeeps(gh: GitHub, lim: Limits, s: Loop, repo: string)
    requires s.cursor.runOffset >= 0 && s.pages <= lim.maxPages
    ensures var n := AtRuns(gh, lim, s, repo).s;
            && n.repos == s.repos && n.runs == s.runs && n.complete == s.complete && n.t >= s.t && s.skipped <= n.skipped
            && (n.repoCount == s.repoCount || (n.repoCount == s.repoCount + 1 && |s.runs| < PAGE_SIZE))
  {
    hide CollectRun, Unchanged, NextRepo, AdvanceRun;
    if s.cursor.runOffset < |s.runs| && Positive(s.runs[s.cursor.runOffset].id).Some? {
      CollectRunKeeps(gh, lim, s, repo, s.runs[s.cursor.runOffset]);
    }
  }

  /** How a step may leave a repository. */
  predicate LeftRight(s: Loop, n: Loop)
    requires s.cursor.repoOffset >= 0
  {
    || n.repoCount == s.repoCount
    || (n.repoCount == s.repoCount + 1
        && ((s.cursor.repoOffset < |n.repos| && n.repos[s.cursor.repoOffset] == "") || |n.runs| < PAGE_SIZE))
  }

  lemma AtReposKeeps(gh: GitHub, lim: Limits, s: Loop)
    requires s.cursor.repoOffset >= 0 && s.cursor.runOffset >= 0 && s.pages <= lim.maxPages
    ensures var n := AtRepos(gh, lim, s);
            && n.s.repos == s.repos && n.s.t >= s.t && s.skipped <= n.s.skipped && LeftRight(s, n.s)
            && (n.s.complete && !s.complete ==> n.Stop? && |s.repos| < PAGE_SIZE)
  {
    if StaysAtRepos(lim, s) {
      StayKeeps(gh, lim, s);
    } else {
      GoKeeps(gh, lim, s);
    }
    hide AtRepos, AtRuns, OnRaise, Raises, LeftRight, StaysAtRepos;
  }

  lemma StayKeeps(gh: GitHub, lim: Limits, s: Loop)
    requires s.cursor.repoOffset >= 0 && s.cursor.runOffset >= 0 && StaysAtRepos(lim, s)
    ensures var n := AtRepos(gh, lim, s);
            && n.s.repos == s.repos && n.s.t >= s.t && s.skipped <= n.s.skipped && LeftRight(s, n.s)
            && (n.s.complete && !s.complete ==> n.Stop? && |s.repos| < PAGE_SIZE)
  {
    hide AtRuns, NextRepo;
  }

  lemma GoKeeps(gh: GitHub, lim: Limits, s: Loop)
    requires s.cursor.repoOffset >= 0 && s.cursor.runOffset >= 0 && !StaysAtRepos(lim, s) && s.pages <= lim.maxPages
    ensures var n := AtRepos(gh, lim, s);
            && n.s.repos == s.repos && n.s.t >= s.t && s.skipped <= n.s.skipped && LeftRight(s, n.s)
            && n.s.complete == s.complete
  {
    AtReposGoes(gh, lim, s);
    hide AtRuns, AtRepos, Raises, StaysAtRepos;
    var repo := s.repos[s.cursor.repoOffset];
    var r := gh(s.t, GetRuns(repo, s.cursor.runPage));
    if RunsHeld(s, repo) {
      AtRunsKeeps(gh, lim, s, repo);
    } else if r.RunsPage? {
      AtRunsKeeps(gh, lim, s.(t := s.t + 1, pages := s.pages + 1, runs := r.runs, runsRepo := Some(repo),
                              runsLoaded := true), repo);
    }
  }

  lemma IterateSkips(gh: GitHub, lim: Limits, s: Loop)
    requires InBounds(lim, s) && s.pages < lim.maxPages
    ensures s.skipped <= Iterate(gh, lim, s).s.skipped && LeftRight(s, Iterate(gh, lim, s).s)
  {
    hide AtRepos;
    var r := gh(s.t, GetRepos(s.cursor.repoPage));
    if s.reposLoaded {
      AtReposKeeps(gh, lim, s);
    } else if r.ReposPage? {
      AtReposKeeps(gh, lim, s.(t := s.t + 1, pages := s.pages + 1, repos := r.repos, reposLoaded := true));
    }
  }

  /** A pass calls itself complete exactly when it went through everything, has nothing to report and
      left no row open. */
  lemma CompleteIff(gh: GitHub, lim: Limits, saved: Saved)
    requires LimitsOk(lim)
    ensures var o := Pass(gh, lim, saved);
            && (o.status.complete <==>
                o.status.traversalComplete && o.status.partial == {} && o.status.caps == {}
                && forall key | key in o.saved.tables.runs :: o.saved.tables.runs[key].complete)
            && o.status.incompleteRuns == |set key | key in o.saved.tables.runs && !o.saved.tables.runs[key].complete|
  {
    hide RunLoop;
    var runs := Pass(gh, lim, saved).saved.tables.runs;
    var open := set key | key in runs && !runs[key].complete;
    if |open| == 0 {
      assert forall key :: key in runs && !runs[key].complete ==> key in open;
    }
  }

  // ---------------------------------------------------------------- what a pass relies on

  /** GitHub answered a short page of repositories in between. */
  ghost predicate SawTheEnd(gh: GitHub, from: nat, to: nat) {
    exists t: nat, page :: from <= t < to && gh(t, GetRepos(page)).ReposPage? && |gh(t, GetRepos(page)).repos| < 100
  }

  /** The repositories in memory are a page that GitHub answered. */
  ghost predicate Held(gh: GitHub, from: nat, s: Loop) {
    s.reposLoaded ==> exists t: nat, page :: from <= t < s.t && gh(t, GetRepos(page)) == ReposPage(s.repos)
  }

  lemma IterateHolds(gh: GitHub, lim: Limits, from: nat, s: Loop)
    requires InBounds(lim, s) && Held(gh, from, s) && !s.complete && from <= s.t && s.pages < lim.maxPages
    ensures var n := Iterate(gh, lim, s);
            && n.s.t >= s.t && Held(gh, from, n.s)
            && (n.s.complete ==> n.Stop? && SawTheEnd(gh, from, n.s.t))
  {
    hide AtRepos;
    if s.reposLoaded {
      AtReposKeeps(gh, lim, s);
    } else {
      var r := gh(s.t, GetRepos(s.cursor.repoPage));
      if r.ReposPage? {
        AtReposKeeps(gh, lim, s.(t := s.t + 1, pages := s.pages + 1, repos := r.repos, reposLoaded := true));
      }
    }
  }

  lemma {:induction false} RunLoopHolds(gh: GitHub, lim: Limits, from: nat, s: Loop)
    requires LimitsOk(lim) && InBounds(lim, s) && Held(gh, from, s) && !s.complete && from <= s.t
    ensures var r := RunLoop(gh, lim, s); r.complete ==> SawTheEnd(gh, from, r.t)
    decreases Fuel(lim, s)
  {
    hide Iterate, Held, SawTheEnd;
    if s.pages < lim.maxPages {
      IterateBounded(gh, lim, s);
      IterateHolds(gh, lim, from, s);
      if Iterate(gh, lim, s).Again? {
        RunLoopHolds(gh, lim, from, Iterate(gh, lim, s).s);
      }
    }
  }

  /** A pass only claims to have gone through everything after GitHub answered it a short page of
      repositories, whatever else it answers. */
  lemma CompleteSawTheEnd(gh: GitHub, lim: Limits, saved: Saved)
    requires LimitsOk(lim) && Pass(gh, lim, saved).status.traversalComplete
    ensures exists t: nat, page ::
              saved.t <= t < Pass(gh, lim, saved).saved.t
              && gh(t, GetRepos(page)).ReposPage? && |gh(t, GetRepos(page)).repos| < 100
  {
    hide RunLoop;
    RunLoopHolds(gh, lim, saved.t, Start(saved));
    assert SawTheEnd(gh, saved.t, Pass(gh, lim, saved).saved.t);
  }

  /** A repository is only left when it has no name or its last run page was short. */
  lemma LeavesAfterAShortPage(gh: GitHub, lim: Limits, s: Loop)
    requires InBounds(lim, s) && s.pages < lim.maxPages && Iterate(gh, lim, s).s.repoCount > s.repoCount
    ensures var n := Iterate(gh, lim, s).s;
            n.repoCount == s.repoCount + 1
            && ((s.cursor.repoOffset < |n.repos| && n.repos[s.cursor.repoOffset] == "") || |n.runs| < 100)
  {
    IterateSkips(gh, lim, s);
    hide Iterate;
  }

  /** An exception while a run's jobs are read ends the pass and writes no job. A rate limit leaves the
      run an open row for this state, with the reasons it had; any other exception leaves all rows. */
  lemma RaisedReadLeaves(gh: GitHub, lim: Limits, s: Loop, repo: string, run: RunItem)
    requires Positive(run.id).Some?
    requires FetchJobs(gh, s.t, repo, run, ResumeJobPage(s.cursor, run).1, s.pages, lim.maxPages).Raised?
    ensures var e := FetchJobs(gh, s.t, repo, run, ResumeJobPage(s.cursor, run).1, s.pages, lim.maxPages).error;
            var n, key := CollectRun(gh, lim, s, repo, run), (repo, run.id.value);
            var before, after := s.tables.runs, n.s.tables.runs;
            && n.Stop? && n.s.tables.jobs == s.tables.jobs
            && (!e.RateLimited? ==> after == before)
            && (e.RateLimited? ==>
                  && after.Keys == before.Keys + {key} && (forall k :: k in before && k != key ==> after[k] == before[k])
                  && !after[key].complete && after[key].attempt == Positive(run.attempt) && after[key].updatedAt == run.updatedAt
                  && after[key].reasons
                     == if key in before && before[key].attempt == Positive(run.attempt) && before[key].updatedAt == run.updatedAt
                        then before[key].reasons else {})
  {
    hide FetchJobs;
    assert StorableJobs([]) == [] && Upsert(s.tables.jobs, repo, run.id.value, []) == s.tables.jobs;
  }

  // ---------------------------------------------------------------- the jobs a pass counts

  lemma {:induction false} UpsertGrows(table: JobTable, repo: string, runId: int, jobs: seq<JobItem>)
    requires forall j :: j in jobs ==> Storable(j)
    ensures |Upsert(table, repo, runId, jobs)| <= |table| + |jobs|
  {
    if jobs != [] {
      var init, job := jobs[..|jobs| - 1], jobs[|jobs| - 1];
      assert jobs == init + [job];
      UpsertGrows(table, repo, runId, init);
      var before, key := Upsert(table, repo, runId, init), (repo, OrZero(job.id));
      var after := before[key := JobRow(runId, Positive(job.attempt), job.payload)];
      assert after.Keys == before.Keys + {key};
      assert |after.Keys| == |after| && |before.Keys| == |before|;
    }
  }

  predicate Tallied(s0: Loop, s: Loop) {
    |s.tables.jobs| - |s0.tables.jobs| <= s.jobCount - s0.jobCount
  }

  lemma StoreGrows(tables: Tables, repo: string, run: RunItem, f: Fetched)
    requires Positive(run.id).Some?
    ensures |StoreFetched(tables, repo, run, f).jobs| <= |tables.jobs| + if f.Fetched? then |StorableJobs(f.jobs)| else 0
  {
    var jobs := if f.Fetched? then StorableJobs(f.jobs) else [];
    UpsertGrows(tables.jobs, repo, run.id.value, jobs);
    hide StorableJobs, JobReasons, Upsert, PriorReasons;
  }

  lemma CollectRunTallies(gh: GitHub, lim: Limits, s: Loop, repo: string, run: RunItem)
    requires Positive(run.id).Some?
    ensures Tallied(s, CollectRun(gh, lim, s, repo, run).s)
  {
    var f := FetchJobs(gh, s.t, repo, run, ResumeJobPage(s.cursor, run).1, s.pages, lim.maxPages);
    StoreGrows(s.tables, repo, run, f);
    var s1 := s.(cursor := ResumeJobPage(s.cursor, run).0, t := f.t, tables := StoreFetched(s.tables, repo, run, f));
    SettleCounts(s1, run, f);
    hide FetchJobs, StorableJobs, JobReasons, StoreFetched, ResumeJobPage, Settle;
  }

  lemma SettleCounts(s: Loop, run: RunItem, f: Fetched)
    ensures var n := Settle(s, run, f).s;
            n.tables == s.tables && n.jobCount == s.jobCount + if f.Fetched? then |StorableJobs(f.jobs)| else 0
  {
    hide StorableJobs, JobReasons, AdvanceRun;
  }

  lemma AtRunsTallies(gh: GitHub, lim: Limits, s: Loop, repo: string)
    requires s.cursor.runOffset >= 0
    ensures Tallied(s, AtRuns(gh, lim, s, repo).s)
  {
    hide CollectRun, Unchanged, NextRepo, AdvanceRun;
    if s.cursor.runOffset < |s.runs| && Positive(s.runs[s.cursor.runOffset].id).Some? {
      CollectRunTallies(gh, lim, s, repo, s.runs[s.cursor.runOffset]);
    }
  }

  lemma AtReposTallies(gh: GitHub, lim: Limits, s: Loop)
    requires s.cursor.repoOffset >= 0 && s.cursor.runOffset >= 0
    ensures Tallied(s, AtRepos(gh, lim, s).s)
  {
    hide AtRuns, NextRepo;
    if s.cursor.repoOffset < |s.repos| {
      var repo := s.repos[s.cursor.repoOffset];
      var r := gh(s.t, GetRuns(repo, s.cursor.runPage));
      if s.runsLoaded && s.runsRepo == Some(repo) {
        AtRunsTallies(gh, lim, s, repo);
      } else if r.RunsPage? {
        AtRunsTallies(gh, lim, s.(t := s.t + 1, pages := s.pages + 1, runs := r.runs, runsRepo := Some(repo),
                                  runsLoaded := true), repo);
      }
    }
  }

  lemma IterateTallies(gh: GitHub, lim: Limits, s: Loop)
    requires s.cursor.repoOffset >= 0 && s.cursor.runOffset >= 0
    ensures Tallied(s, Iterate(gh, lim, s).s)
  {
    hide AtRepos;
    var r := gh(s.t, GetRepos(s.cursor.repoPage));
    if s.reposLoaded {
      AtReposTallies(gh, lim, s);
    } else if r.ReposPage? {
      AtReposTallies(gh, lim, s.(t := s.t + 1, pages := s.pages + 1, repos := r.repos, reposLoaded := true));
    }
  }

  lemma {:induction false} RunLoopTallies(gh: GitHub, lim: Limits, s: Loop)
    requires LimitsOk(lim) && InBounds(lim, s)
    ensures Tallied(s, RunLoop(gh, lim, s))
    decreases Fuel(lim, s)
  {
    hide Iterate;
    if s.pages < lim.maxPages {
      IterateBounded(gh, lim, s);
      IterateTallies(gh, lim, s);
      if Iterate(gh, lim, s).Again? {
        RunLoopTallies(gh, lim, Iterate(gh, lim, s).s);
      }
    }
  }

  /** Whatever GitHub answers, every job row a pass creates is among the jobs it counts. */
  lemma NewRowsAreCounted(gh: GitHub, lim: Limits, saved: Saved)
    requires LimitsOk(lim)
    ensures var o := Pass(gh, lim, saved);
            |o.saved.tables.jobs| - |saved.tables.jobs| <= o.status.jobs
  {
    hide RunLoop;
    RunLoopTallies(gh, lim, Start(saved));
  }
}
