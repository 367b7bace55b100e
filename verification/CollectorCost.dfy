/** What a pass over a listing that does not change counts and costs
    (backend/job_metrics_collector.py): repositories, runs, jobs and requests add up over the passes
    of a cycle to what is listed. */
module CollectorCost {
  import opened Common
  import opened JobMetrics
  import opened Collector
  import opened CollectorSoundness
  import opened CollectorCoverage

  /** Something counted for each run of a repository. */
  type Weight = (string, RunItem) -> int

  function OverRuns(w: Weight, repo: string, runs: seq<RunItem>): int {
    if runs == [] then 0 else OverRuns(w, repo, runs[..|runs| - 1]) + w(repo, runs[|runs| - 1])
  }

  /** The sum over the first n repositories. */
  function OverRepos(w: Weight, L: Listing, n: int): int
    requires 0 <= n <= |L.repos|
  {
    if n == 0 then 0
    else OverRepos(w, L, n - 1) + if L.repos[n - 1] == "" then 0 else OverRuns(w, L.repos[n - 1], L.runsOf(L.repos[n - 1]))
  }

  /** The sum over the runs before the cursor. */
  function Before(w: Weight, L: Listing, c: Cursor): int
    requires InRange(L, c)
  {
    OverRepos(w, L, RepoIdx(c))
    + if RepoIdx(c) < |L.repos| && L.repos[RepoIdx(c)] != ""
      then OverRuns(w, L.repos[RepoIdx(c)], L.runsOf(L.repos[RepoIdx(c)])[..RunIdx(c)]) else 0
  }

  const ONE: Weight := (repo: string, run: RunItem) => 1

  /** The pages a list of n items is served in: the last of them is short. */
  function PagesOf(n: int): int {
    n / PAGE_SIZE + 1
  }

  function JobPages(L: Listing): Weight {
    (repo: string, run: RunItem) => if Positive(run.id).None? then 0 else PagesOf(|L.jobsOf(repo, RunIdent(run))|)
  }

  function ValidJobs(L: Listing): Weight {
    (repo: string, run: RunItem) => if Positive(run.id).None? then 0 else |StorableJobs(L.jobsOf(repo, RunIdent(run)))|
  }

  /** The run pages of the first n repositories. */
  function RunPages(L: Listing, n: int): int
    requires 0 <= n <= |L.repos|
  {
    if n == 0 then 0
    else RunPages(L, n - 1) + if L.repos[n - 1] == "" then 0 else PagesOf(|L.runsOf(L.repos[n - 1])|)
  }

  /** The pages before the cursor. */
  function PagesBefore(L: Listing, c: Cursor): int
    requires InRange(L, c)
  {
    c.repoPage - 1 + RunPages(L, RepoIdx(c)) + c.runPage - 1 + Before(JobPages(L), L, c) + JobPos(L, c) - 1
  }

  /** The jobs that can be stored of the run under the cursor, on the pages before its job page. */
  function JobsOfPart(L: Listing, c: Cursor): int
    requires InRange(L, c)
  {
    var run := RunAt(L, c);
    if run.None? || JobPos(L, c) == 1 then 0
    else
      var xs := L.jobsOf(RepoAt(L, c).value, RunIdent(run.value));
      |StorableJobs(xs[..Max(0, Min(|xs|, PAGE_SIZE * (JobPos(L, c) - 1)))])|
  }

  /** The jobs before the cursor that can be stored. */
  function JobsBefore(L: Listing, c: Cursor): int
    requires InRange(L, c)
  {
    Before(ValidJobs(L), L, c) + JobsOfPart(L, c)
  }

  /** The pages of the whole listing. */
  function AllPages(L: Listing): int {
    PagesOf(|L.repos|) + RunPages(L, |L.repos|) + OverRepos(JobPages(L), L, |L.repos|)
  }

  /** The pages held in memory. */
  function Open(s: Loop): int {
    (if s.reposLoaded then 1 else 0) + (if s.runsLoaded then 1 else 0)
  }

  /** From one state to another the counters grow by what lies between the cursors. */
  predicate Adds(L: Listing, s0: Loop, s: Loop)
    requires InRange(L, s0.cursor) && InRange(L, s.cursor)
  {
    && s.repoCount - s0.repoCount == RepoIdx(s.cursor) - RepoIdx(s0.cursor)
    && s.runCount - s0.runCount == Before(ONE, L, s.cursor) - Before(ONE, L, s0.cursor)
    && 0 <= s.jobCount - s0.jobCount <= JobsBefore(L, s.cursor) - JobsBefore(L, s0.cursor)
    && s.pages - s0.pages <= PagesBefore(L, s.cursor) - PagesBefore(L, s0.cursor) + Open(s) - Open(s0)
  }

  /** And at the end of the cycle by what was left. */
  predicate AddsAll(L: Listing, s0: Loop, s: Loop)
    requires InRange(L, s0.cursor)
  {
    && s.repoCount - s0.repoCount == |L.repos| - RepoIdx(s0.cursor)
    && s.runCount - s0.runCount == OverRepos(ONE, L, |L.repos|) - Before(ONE, L, s0.cursor)
    && 0 <= s.jobCount - s0.jobCount <= OverRepos(ValidJobs(L), L, |L.repos|) - JobsBefore(L, s0.cursor)
    && s.pages - s0.pages <= AllPages(L) - PagesBefore(L, s0.cursor) - Open(s0)
  }

  predicate Counted(L: Listing, s0: Loop, s: Loop)
    requires InRange(L, s0.cursor)
  {
    if s.complete then AddsAll(L, s0, s) else InRange(L, s.cursor) && Adds(L, s0, s)
  }

  lemma CountsOn(L: Listing, a: Loop, b: Loop, c: Loop)
    requires InRange(L, a.cursor) && InRange(L, b.cursor) && Adds(L, a, b) && Counted(L, b, c)
    ensures Counted(L, a, c)
  {
    hide Before, PagesBefore, JobsBefore, AllPages, InRange, OverRepos, Open, RepoIdx;
  }

  // ---------------------------------------------------------------- moving the cursor

  lemma RunsSnoc(w: Weight, repo: string, runs: seq<RunItem>, i: int)
    requires 0 <= i < |runs|
    ensures OverRuns(w, repo, runs[..i + 1]) == OverRuns(w, repo, runs[..i]) + w(repo, runs[i])
  {
    assert runs[..i + 1][..i] == runs[..i];
  }

  /** Past a run its weight is added. */
  lemma AdvanceAdds(w: Weight, L: Listing, c: Cursor, c1: Cursor, repo: string, runs: seq<RunItem>)
    requires InRange(L, c) && SamePlace(c, c1) && RepoAt(L, c) == Some(repo) && repo != ""
    requires runs == Page(L.runsOf(repo), c.runPage) && c.runOffset < |runs|
    ensures var d := AdvanceRun(c1, |runs|).0;
            && InRange(L, d) && RepoIdx(d) == RepoIdx(c) && d.repoPage == c.repoPage
            && Before(w, L, d) == Before(w, L, c) + w(repo, runs[c.runOffset]) && JobPos(L, d) == 1
  {
    PageIndex(L.repos, c.repoPage, c.repoOffset);
    PageIndex(L.runsOf(repo), c.runPage, c.runOffset);
    hide Page;
    var d := AdvanceRun(c1, |runs|).0;
    assert RepoIdx(d) == RepoIdx(c) && RunIdx(d) == RunIdx(c) + 1;
    RunsSnoc(w, repo, L.runsOf(repo), RunIdx(c));
  }

  /** Past a repository nothing is added: its runs were counted one by one. */
  lemma NextAdds(w: Weight, L: Listing, c: Cursor, repo: string, repos: seq<string>)
    requires InRange(L, c) && repos == RepoPageAt(L, c) && RepoAt(L, c) == Some(repo)
    requires repo != "" ==> RunIdx(c) == |L.runsOf(repo)|
    ensures var d := NextRepo(c, |repos|).0;
            && InRange(L, d) && RepoIdx(d) == RepoIdx(c) + 1 && d.runPage == 1
            && Before(w, L, d) == Before(w, L, c)
  {
    PageIndex(L.repos, c.repoPage, c.repoOffset);
    hide Page;
    var d := NextRepo(c, |repos|).0;
    assert RepoIdx(d) == RepoIdx(c) + 1 && RunIdx(d) == 0;
    if RepoIdx(d) < |L.repos| {
      assert L.runsOf(L.repos[RepoIdx(d)])[..0] == [];
    }
    assert repo != "" ==> L.runsOf(repo)[..|L.runsOf(repo)|] == L.runsOf(repo);
  }

  lemma {:induction false} StorableJoin(a: seq<JobItem>, b: seq<JobItem>)
    ensures StorableJobs(a + b) == StorableJobs(a) + StorableJobs(b)
  {
    if b == [] {
      assert a + b == a;
    } else {
      var init, last := b[..|b| - 1], b[|b| - 1];
      StorableJoin(a, init);
      assert (a + b)[..|a + b| - 1] == a + init;
    }
  }

  lemma StorableSplit(xs: seq<JobItem>, n: int)
    requires 0 <= n <= |xs|
    ensures |StorableJobs(xs)| == |StorableJobs(xs[..n])| + |StorableJobs(xs[n..])|
  {
    assert xs == xs[..n] + xs[n..];
    StorableJoin(xs[..n], xs[n..]);
  }

  /** The job page of a justified cursor is one of the run's. */
  lemma JobPageFits(L: Listing, home: Homes, tables: Tables, c: Cursor)
    requires WellFormed(L, home) && CursorPos(c) && CursorSound(tables, L.jobsOf, home, c) && RunAt(L, c).Some?
    ensures var xs := L.jobsOf(RepoAt(L, c).value, RunIdent(RunAt(L, c).value));
            0 <= PAGE_SIZE * (JobPos(L, c) - 1) <= |xs|
  {
    var repo, run := RepoAt(L, c).value, RunAt(L, c).value;
    assert run in L.runsOf(repo);
    assert Belongs(home, repo, run);
  }

  // ---------------------------------------------------------------- one iteration

  /** What was counted of a run is no more than there is. */
  lemma PartFits(L: Listing, home: Homes, tables: Tables, c: Cursor)
    requires WellFormed(L, home) && InRange(L, c) && CursorSound(tables, L.jobsOf, home, c) && RunAt(L, c).Some?
    ensures var repo, run := RepoAt(L, c).value, RunAt(L, c).value;
            JobPos(L, c) - 1 <= JobPages(L)(repo, run) && 0 <= JobsOfPart(L, c) <= ValidJobs(L)(repo, run)
  {
    JobPageFits(L, home, tables, c);
    var xs := L.jobsOf(RepoAt(L, c).value, RunIdent(RunAt(L, c).value));
    StorableSplit(xs, PAGE_SIZE * (JobPos(L, c) - 1));
    hide WellFormed, CursorSound, StorableJobs, RepoAt, RunAt;
  }

  lemma PastRunCounts(L: Listing, s: Loop, s1: Loop, c: Cursor)
    requires InRange(L, s.cursor) && InRange(L, c) && RepoIdx(c) == RepoIdx(s.cursor) && c.repoPage == s.cursor.repoPage
    requires PastRun(s1).cursor == c && JobPos(L, c) == 1 && s1.reposLoaded == s.reposLoaded && s.runsLoaded && s1.runsLoaded
    requires c.runPage == s.cursor.runPage + if PastRun(s1).runsLoaded then 0 else 1
    requires s1.repoCount == s.repoCount && s1.runCount == s.runCount && !s1.complete
    requires Before(ONE, L, c) == Before(ONE, L, s.cursor) + 1
    requires s1.pages - s.pages <= Before(JobPages(L), L, c) - Before(JobPages(L), L, s.cursor) - (JobPos(L, s.cursor) - 1)
    requires 0 <= s1.jobCount - s.jobCount <= Before(ValidJobs(L), L, c) - Before(ValidJobs(L), L, s.cursor) - JobsOfPart(L, s.cursor)
    ensures Counted(L, s, PastRun(s1))
  {
    assert JobsOfPart(L, c) == 0;
    hide Before, StorableJobs, InRange, RunPages, RepoIdx, JobPos, AdvanceRun, JobsOfPart;
  }

  /** The run under the cursor is left, after some of its jobs and pages were counted. */
  lemma PastRunAdds(L: Listing, home: Homes, s: Loop, s1: Loop, repo: string)
    requires WellFormed(L, home) && CursorSound(s.tables, L.jobsOf, home, s.cursor)
    requires Consistent(L, s) && InRange(L, s.cursor) && s.reposLoaded && s.runsLoaded && s.runsRepo == Some(repo)
    requires RepoAt(L, s.cursor) == Some(repo) && repo != "" && s.cursor.runOffset < |s.runs|
    requires s1.runs == s.runs && SamePlace(s.cursor, s1.cursor) && s1.reposLoaded && s1.runsLoaded && !s1.complete
    requires s1.repoCount == s.repoCount && s1.runCount == s.runCount
    requires var run := s.runs[s.cursor.runOffset];
             && (s1.pages == s.pages || s1.pages - s.pages <= JobPages(L)(repo, run) - (JobPos(L, s.cursor) - 1))
             && (s1.jobCount == s.jobCount
                 || 0 <= s1.jobCount - s.jobCount <= ValidJobs(L)(repo, run) - JobsOfPart(L, s.cursor))
    ensures Counted(L, s, PastRun(s1))
  {
    assert RunAt(L, s.cursor) == Some(s.runs[s.cursor.runOffset]);
    PartFits(L, home, s.tables, s.cursor);
    AdvanceAdds(ONE, L, s.cursor, s1.cursor, repo, s.runs);
    AdvanceAdds(JobPages(L), L, s.cursor, s1.cursor, repo, s.runs);
    AdvanceAdds(ValidJobs(L), L, s.cursor, s1.cursor, repo, s.runs);
    var c := AdvanceRun(s1.cursor, |s.runs|).0;
    assert c.runPage == s.cursor.runPage + if AdvanceRun(s1.cursor, |s.runs|).1 then 1 else 0;
    hide Page, Before, StorableJobs, WellFormed, CursorSound, InRange, RepoIdx, Consistent, JobPos, JobsOfPart, RepoAt, RunAt,
      JobPages, ValidJobs, AdvanceRun, Counted;
    PastRunCounts(L, s, s1, c);
  }

  /** A read takes the pages from where it starts to where it ends. */
  lemma {:induction false} FetchCosts(
    gh: GitHub, L: Listing, t: nat, repo: string, run: RunItem, page: int, pages: int, budget: int)
    requires Serves(gh, L) && page >= 1 && PAGE_SIZE * (page - 1) <= |L.jobsOf(repo, RunIdent(run))|
    ensures var f, n := FetchJobs(gh, t, repo, run, page, pages, budget), |L.jobsOf(repo, RunIdent(run))|;
            && f.Fetched?
            && (f.done ==> f.pages - pages == PagesOf(n) - (page - 1))
            && (!f.done ==> f.pages - pages == f.nextPage - page && PAGE_SIZE * (f.nextPage - 1) <= n)
    decreases budget - pages
  {
    if pages < budget {
      var xs := L.jobsOf(repo, RunIdent(run));
      assert gh(t, GetJobs(repo, run, page)) == JobsPage(Page(xs, page));
      PageIsSlice(xs, page);
      hide Serves, Page;
      if PAGE_SIZE * page <= |xs| {
        FetchCosts(gh, L, t + 1, repo, run, page + 1, pages + 1, budget);
      }
    }
  }

  /** The jobs read between two pages. */
  lemma StorableSlice(xs: seq<JobItem>, n: int, m: int)
    requires 0 <= n <= m <= |xs|
    ensures |StorableJobs(xs[n..m])| == |StorableJobs(xs[..m])| - |StorableJobs(xs[..n])|
  {
    assert xs[..m][..n] == xs[..n] && xs[..m][n..] == xs[n..m];
    StorableSplit(xs[..m], n);
  }

  lemma SamePlaceAdds(L: Listing, s: Loop, s1: Loop)
    requires InRange(L, s.cursor) && SamePlace(s.cursor, s1.cursor) && CursorPos(s1.cursor)
    requires s1.reposLoaded == s.reposLoaded && s1.runsLoaded == s.runsLoaded && !s1.complete
    requires s1.repoCount == s.repoCount && s1.runCount == s.runCount
    requires s1.pages - s.pages == JobPos(L, s1.cursor) - JobPos(L, s.cursor)
    requires 0 <= s1.jobCount - s.jobCount == JobsOfPart(L, s1.cursor) - JobsOfPart(L, s.cursor)
    ensures Counted(L, s, s1)
  {
    hide JobPos, JobsOfPart, StorableJobs, RunPages;
    assert InRange(L, s1.cursor) && RepoIdx(s1.cursor) == RepoIdx(s.cursor) && RunIdx(s1.cursor) == RunIdx(s.cursor);
  }

  /** What a read of the run under the cursor returns. */
  lemma ReadReturns(gh: GitHub, L: Listing, home: Homes, lim: Limits, s: Loop, repo: string, run: RunItem)
    requires Serves(gh, L) && WellFormed(L, home) && CursorSound(s.tables, L.jobsOf, home, s.cursor)
    requires CursorPos(s.cursor) && RepoAt(L, s.cursor) == Some(repo) && RunAt(L, s.cursor) == Some(run)
    requires Positive(run.id).Some?
    ensures var start := JobPos(L, s.cursor);
            var xs := L.jobsOf(repo, RunIdent(run));
            var f := FetchJobs(gh, s.t, repo, run, start, s.pages, lim.maxPages);
            && start == ResumeJobPage(s.cursor, run).1 && 0 <= PAGE_SIZE * (start - 1) <= |xs|
            && f.Fetched? && f.problem == (if f.done then None else Some(PageCapReason))
            && (f.done ==> f.pages - s.pages == PagesOf(|xs|) - (start - 1) && f.jobs == xs[PAGE_SIZE * (start - 1)..])
            && (!f.done ==> f.pages - s.pages == f.nextPage - start && start <= f.nextPage && PAGE_SIZE * (f.nextPage - 1) <= |xs|
                            && f.jobs == xs[PAGE_SIZE * (start - 1)..PAGE_SIZE * (f.nextPage - 1)])
  {
    JobPageFits(L, home, s.tables, s.cursor);
    var start := JobPos(L, s.cursor);
    assert start == ResumeJobPage(s.cursor, run).1;
    ServesHonestly(gh, L, home);
    hide Serves, HonestJobs, HonestRuns, WellFormed, CursorSound, RepoAt, RunAt, JobPos;
    FetchCosts(gh, L, s.t, repo, run, start, s.pages, lim.maxPages);
    FetchServed(gh, L, s.t, repo, run, start, s.pages, lim.maxPages);
    FetchReadsSlice(gh, L.jobsOf, s.t, repo, run, start, s.pages, lim.maxPages);
    hide FetchJobs;
  }

  /** What it adds. */
  lemma ReadAdds(gh: GitHub, L: Listing, home: Homes, lim: Limits, s: Loop, repo: string, run: RunItem)
    requires Serves(gh, L) && WellFormed(L, home) && CursorSound(s.tables, L.jobsOf, home, s.cursor)
    requires InRange(L, s.cursor) && RepoAt(L, s.cursor) == Some(repo) && RunAt(L, s.cursor) == Some(run)
    requires Positive(run.id).Some?
    ensures var start := ResumeJobPage(s.cursor, run).1;
            var xs := L.jobsOf(repo, RunIdent(run));
            var f := FetchJobs(gh, s.t, repo, run, start, s.pages, lim.maxPages);
            && start == JobPos(L, s.cursor) && f.Fetched? && f.problem == (if f.done then None else Some(PageCapReason))
            && (f.done ==> f.pages - s.pages == PagesOf(|xs|) - (start - 1)
                           && |StorableJobs(f.jobs)| == |StorableJobs(xs)| - JobsOfPart(L, s.cursor))
            && (!f.done ==> f.pages - s.pages == f.nextPage - start && 0 <= PAGE_SIZE * (f.nextPage - 1) <= |xs|
                            && |StorableJobs(f.jobs)|
                               == |StorableJobs(xs[..PAGE_SIZE * (f.nextPage - 1)])| - JobsOfPart(L, s.cursor))
  {
    ReadReturns(gh, L, home, lim, s, repo, run);
    var f := FetchJobs(gh, s.t, repo, run, JobPos(L, s.cursor), s.pages, lim.maxPages);
    ReadCounts(L, s.cursor, L.jobsOf(repo, RunIdent(run)), f.done, f.nextPage, f.jobs);
    hide *;
  }

  lemma ReadCounts(L: Listing, c: Cursor, xs: seq<JobItem>, done: bool, next: int, jobs: seq<JobItem>)
    requires InRange(L, c) && RunAt(L, c).Some? && xs == L.jobsOf(RepoAt(L, c).value, RunIdent(RunAt(L, c).value))
    requires 0 <= PAGE_SIZE * (JobPos(L, c) - 1) <= |xs|
    requires done ==> jobs == xs[PAGE_SIZE * (JobPos(L, c) - 1)..]
    requires !done ==> JobPos(L, c) <= next && PAGE_SIZE * (next - 1) <= |xs|
                       && jobs == xs[PAGE_SIZE * (JobPos(L, c) - 1)..PAGE_SIZE * (next - 1)]
    ensures done ==> |StorableJobs(jobs)| == |StorableJobs(xs)| - JobsOfPart(L, c)
    ensures !done ==> |StorableJobs(jobs)| == |StorableJobs(xs[..PAGE_SIZE * (next - 1)])| - JobsOfPart(L, c)
  {
    PartIs(L, c, xs);
    var end := if done then |xs| else PAGE_SIZE * (next - 1);
    assert xs[..|xs|] == xs && xs[PAGE_SIZE * (JobPos(L, c) - 1)..end] == jobs;
    StorableSlice(xs, PAGE_SIZE * (JobPos(L, c) - 1), end);
    hide InRange, RunAt, RepoAt, JobPos, JobsOfPart, StorableJobs;
  }

  lemma PartIs(L: Listing, c: Cursor, xs: seq<JobItem>)
    requires InRange(L, c) && RunAt(L, c).Some? && xs == L.jobsOf(RepoAt(L, c).value, RunIdent(RunAt(L, c).value))
    requires 0 <= PAGE_SIZE * (JobPos(L, c) - 1) <= |xs|
    ensures JobsOfPart(L, c) == |StorableJobs(xs[..PAGE_SIZE * (JobPos(L, c) - 1)])|
  {
    assert xs[..0] == [];
  }

  /** A read that ran out of pages leaves the cursor at the next page of the run. */
  lemma StoppedAdds(L: Listing, s: Loop, n: Loop, repo: string, run: RunItem, page: int, jobs: int)
    requires InRange(L, s.cursor) && RepoAt(L, s.cursor) == Some(repo) && RunAt(L, s.cursor) == Some(run)
    requires Positive(run.id).Some? && page >= JobPos(L, s.cursor)
    requires n.cursor == s.cursor.(jobPage := page, jobRunId := RunIdent(run).id, jobAttempt := RunIdent(run).attempt,
                                   jobUpdatedAt := RunIdent(run).updatedAt)
    requires n.reposLoaded == s.reposLoaded && n.runsLoaded == s.runsLoaded && !n.complete
    requires n.repoCount == s.repoCount && n.runCount == s.runCount
    requires n.pages - s.pages == page - JobPos(L, s.cursor) && n.jobCount - s.jobCount == jobs >= 0
    requires var xs := L.jobsOf(repo, RunIdent(run));
             0 <= PAGE_SIZE * (page - 1) <= |xs| && jobs == |StorableJobs(xs[..PAGE_SIZE * (page - 1)])| - JobsOfPart(L, s.cursor)
    ensures Counted(L, s, n)
  {
    assert RepoAt(L, n.cursor) == Some(repo) && RunAt(L, n.cursor) == Some(run) && JobPos(L, n.cursor) == page;
    assert L.jobsOf(repo, RunIdent(run))[..0] == [];
    hide StorableJobs, RunAt, RepoAt, Counted;
    SamePlaceAdds(L, s, n);
  }

  /** The state after a read that met no bad page. */
  function ReadState(s: Loop, repo: string, run: RunItem, f: Fetched): Loop
    requires Positive(run.id).Some? && f.Fetched?
  {
    s.(cursor := ResumeJobPage(s.cursor, run).0, t := f.t, tables := StoreFetched(s.tables, repo, run, f), pages := f.pages,
       jobCount := s.jobCount + |StorableJobs(f.jobs)|, partial := s.partial + JobReasons(f.jobs))
  }

  lemma CollectRunIs(gh: GitHub, lim: Limits, s: Loop, repo: string, run: RunItem)
    requires Positive(run.id).Some? && !s.complete
    ensures var start := ResumeJobPage(s.cursor, run).1;
            var f := FetchJobs(gh, s.t, repo, run, start, s.pages, lim.maxPages);
            var n := CollectRun(gh, lim, s, repo, run);
            && (f.Fetched? && f.done ==> n == Again(PastRun(ReadState(s, repo, run, f))))
            && (f.Fetched? && !f.done && f.problem == Some(PageCapReason) ==>
                  && n.s == ReadState(s, repo, run, f).(cursor := n.s.cursor, partial := n.s.partial, caps := n.s.caps)
                  && n.s.cursor == s.cursor.(jobPage := f.nextPage, jobRunId := RunIdent(run).id,
                                             jobAttempt := RunIdent(run).attempt, jobUpdatedAt := RunIdent(run).updatedAt))
  {
    hide FetchJobs, StorableJobs, JobReasons, StoreFetched, PastRun, RunIdent;
  }

  lemma ReadToEndAdds(L: Listing, home: Homes, s: Loop, repo: string, run: RunItem, f: Fetched)
    requires WellFormed(L, home) && CursorSound(s.tables, L.jobsOf, home, s.cursor)
    requires Consistent(L, s) && InRange(L, s.cursor) && s.reposLoaded && s.runsLoaded && s.runsRepo == Some(repo)
    requires RepoAt(L, s.cursor) == Some(repo) && repo != "" && s.cursor.runOffset < |s.runs| && !s.complete
    requires run == s.runs[s.cursor.runOffset] && Positive(run.id).Some? && f.Fetched?
    requires var xs := L.jobsOf(repo, RunIdent(run));
             && f.pages - s.pages == PagesOf(|xs|) - (JobPos(L, s.cursor) - 1)
             && |StorableJobs(f.jobs)| == |StorableJobs(xs)| - JobsOfPart(L, s.cursor)
    ensures Counted(L, s, PastRun(ReadState(s, repo, run, f)))
  {
    hide StorableJobs, JobReasons, StoreFetched, Page, RunAt, RepoAt, WellFormed, InRange, CursorSound, Counted, JobPos,
      JobsOfPart, Consistent, PastRun, RunIdent, PagesOf;
    PastRunAdds(L, home, s, ReadState(s, repo, run, f), repo);
  }

  lemma RunUnderCursor(L: Listing, s: Loop, repo: string)
    requires Consistent(L, s) && s.runsLoaded && s.runsRepo == Some(repo)
    requires RepoAt(L, s.cursor) == Some(repo) && repo != "" && s.cursor.runOffset < |s.runs|
    ensures RunAt(L, s.cursor) == Some(s.runs[s.cursor.runOffset])
  {
    hide Page, RepoAt;
  }

  lemma ReadPartAdds(L: Listing, s: Loop, n: Loop, repo: string, run: RunItem, f: Fetched)
    requires InRange(L, s.cursor) && RepoAt(L, s.cursor) == Some(repo) && RunAt(L, s.cursor) == Some(run)
    requires Positive(run.id).Some? && f.Fetched? && f.nextPage >= JobPos(L, s.cursor) && !s.complete
    requires n == ReadState(s, repo, run, f).(cursor := n.cursor, partial := n.partial, caps := n.caps)
    requires n.cursor == s.cursor.(jobPage := f.nextPage, jobRunId := RunIdent(run).id,
                                   jobAttempt := RunIdent(run).attempt, jobUpdatedAt := RunIdent(run).updatedAt)
    requires f.pages - s.pages == f.nextPage - JobPos(L, s.cursor)
    requires var xs := L.jobsOf(repo, RunIdent(run));
             0 <= PAGE_SIZE * (f.nextPage - 1) <= |xs|
             && |StorableJobs(f.jobs)| == |StorableJobs(xs[..PAGE_SIZE * (f.nextPage - 1)])| - JobsOfPart(L, s.cursor)
    ensures Counted(L, s, n)
  {
    hide StorableJobs, JobReasons, StoreFetched, RunAt, RepoAt, InRange, Counted, JobPos, JobsOfPart, RunIdent;
    StoppedAdds(L, s, n, repo, run, f.nextPage, |StorableJobs(f.jobs)|);
  }

  /** Read on to the end of a run, or up to where the pages ran out. */
  lemma CollectRunAdds(gh: GitHub, L: Listing, home: Homes, lim: Limits, s: Loop, repo: string, run: RunItem)
    requires Serves(gh, L) && WellFormed(L, home) && CursorSound(s.tables, L.jobsOf, home, s.cursor)
    requires Consistent(L, s) && InRange(L, s.cursor) && s.reposLoaded && s.runsLoaded && s.runsRepo == Some(repo)
    requires RepoAt(L, s.cursor) == Some(repo) && repo != "" && s.cursor.runOffset < |s.runs| && !s.complete
    requires run == s.runs[s.cursor.runOffset] && Positive(run.id).Some?
    ensures Counted(L, s, CollectRun(gh, lim, s, repo, run).s)
  {
    hide *;
    RunUnderCursor(L, s, repo);
    ReadAdds(gh, L, home, lim, s, repo, run);
    CollectRunIs(gh, lim, s, repo, run);
    var f := FetchJobs(gh, s.t, repo, run, ResumeJobPage(s.cursor, run).1, s.pages, lim.maxPages);
    if f.done {
      ReadToEndAdds(L, home, s, repo, run, f);
    } else {
      ReadPartAdds(L, s, CollectRun(gh, lim, s, repo, run).s, repo, run, f);
    }
  }

  lemma AtRunsAdds(gh: GitHub, L: Listing, home: Homes, lim: Limits, s: Loop, repo: string)
    requires Serves(gh, L) && WellFormed(L, home) && CursorSound(s.tables, L.jobsOf, home, s.cursor)
    requires Consistent(L, s) && InRange(L, s.cursor) && s.reposLoaded && s.runsLoaded && s.runsRepo == Some(repo)
    requires RepoAt(L, s.cursor) == Some(repo) && repo != "" && !s.complete
    ensures Counted(L, s, AtRuns(gh, lim, s, repo).s)
  {
    hide CollectRun, Serves, Unchanged, WellFormed, CursorSound, PastRun, NextRepo;
    if s.cursor.runOffset >= |s.runs| {
      NextRepoAdds(L, s, repo, AtRuns(gh, lim, s, repo).s);
    } else if s.runCount < lim.maxRuns {
      var run := s.runs[s.cursor.runOffset];
      assert RunAt(L, s.cursor) == Some(run);
      PartFits(L, home, s.tables, s.cursor);
      hide InRange, Page, Counted;
      if Positive(run.id).None? {
        PastRunAdds(L, home, s, s.(partial := s.partial + {RunIdInvalid}, skipped := s.skipped + {RunIdInvalid}), repo);
      } else if Unchanged(s.tables.runs, repo, run) {
        PastRunAdds(L, home, s, s, repo);
      } else if s.pages < lim.maxPages {
        CollectRunAdds(gh, L, home, lim, s, repo, run);
      } else {
        StayAdds(L, s, AtRuns(gh, lim, s, repo).s);
      }
    } else {
      StayAdds(L, s, AtRuns(gh, lim, s, repo).s);
    }
  }

  lemma StayAdds(L: Listing, s: Loop, s1: Loop)
    requires InRange(L, s.cursor) && !s.complete && s1 == s.(caps := s1.caps)
    ensures Counted(L, s, s1)
  {
  }

  /** The repository under the cursor is left at the end of its runs. */
  lemma NextRepoAdds(L: Listing, s: Loop, repo: string, s1: Loop)
    requires Consistent(L, s) && InRange(L, s.cursor) && s.reposLoaded && s.runsLoaded && s.runsRepo == Some(repo)
    requires RepoAt(L, s.cursor) == Some(repo) && repo != "" && !s.complete && s.cursor.runOffset >= |s.runs|
    requires |s.runs| < PAGE_SIZE ==>
               var (c, leaves) := NextRepo(s.cursor, |s.repos|);
               s1 == s.(cursor := c, repoCount := s.repoCount + 1, runsRepo := None, runsLoaded := false,
                        reposLoaded := s.reposLoaded && !leaves)
    ensures Counted(L, s, s1)
  {
    PageIndex(L.repos, s.cursor.repoPage, s.cursor.repoOffset);
    PageIndex(L.runsOf(repo), s.cursor.runPage, s.cursor.runOffset);
    NextAdds(ONE, L, s.cursor, repo, s.repos);
    NextAdds(JobPages(L), L, s.cursor, repo, s.repos);
    NextAdds(ValidJobs(L), L, s.cursor, repo, s.repos);
    var (c, leaves) := NextRepo(s.cursor, |s.repos|);
    assert RunAt(L, s.cursor).None?;
    assert s.cursor.runPage == PagesOf(|L.runsOf(repo)|);
    assert RunPages(L, RepoIdx(c)) == RunPages(L, RepoIdx(s.cursor)) + PagesOf(|L.runsOf(repo)|);
    hide Page, Before, InRange, RepoIdx, JobPages, ValidJobs, RunPages;
  }

  lemma NamelessAdds(L: Listing, s: Loop, s1: Loop)
    requires Consistent(L, s) && InRange(L, s.cursor) && s.reposLoaded && !s.runsLoaded && !s.complete
    requires RepoAt(L, s.cursor) == Some("")
    requires var (c, leaves) := NextRepo(s.cursor, |s.repos|);
             s1 == s.(cursor := c, repoCount := s.repoCount + 1, reposLoaded := s.reposLoaded && !leaves,
                      partial := s1.partial, skipped := s1.skipped)
    ensures Counted(L, s, s1)
  {
    PageIndex(L.repos, s.cursor.repoPage, s.cursor.repoOffset);
    NextAdds(ONE, L, s.cursor, "", s.repos);
    NextAdds(JobPages(L), L, s.cursor, "", s.repos);
    NextAdds(ValidJobs(L), L, s.cursor, "", s.repos);
    var (c, leaves) := NextRepo(s.cursor, |s.repos|);
    assert RunAt(L, s.cursor).None?;
    assert RunPages(L, RepoIdx(c)) == RunPages(L, RepoIdx(s.cursor));
    hide Page, Before, InRange, RepoIdx, JobPages, ValidJobs, RunPages;
  }

  /** The end of the listing: all that was left is counted. */
  lemma EndAdds(gh: GitHub, L: Listing, lim: Limits, s: Loop)
    requires Consistent(L, s) && InRange(L, s.cursor) && s.reposLoaded && !s.runsLoaded && !s.complete
    requires s.cursor.repoOffset >= |s.repos|
    ensures Counted(L, s, AtRepos(gh, lim, s).s)
  {
    PageIndex(L.repos, s.cursor.repoPage, s.cursor.repoOffset);
    assert RepoIdx(s.cursor) == |L.repos| && RunAt(L, s.cursor).None?;
    hide Page, OverRepos, RunPages, AtRuns;
  }

  lemma LoadedRunsAdd(L: Listing, s: Loop, s1: Loop, s2: Loop)
    requires InRange(L, s.cursor) && s1.cursor == s.cursor && !s1.complete
    requires s1.pages - s.pages == Open(s1) - Open(s)
    requires s1.repoCount == s.repoCount && s1.runCount == s.runCount && s1.jobCount == s.jobCount
    requires Counted(L, s1, s2)
    ensures Counted(L, s, s2)
  {
    hide Before, PagesBefore, JobsBefore, AllPages, InRange, OverRepos, Open, RepoIdx;
  }

  lemma AtReposAdds(gh: GitHub, L: Listing, home: Homes, lim: Limits, s: Loop)
    requires Serves(gh, L) && WellFormed(L, home) && CursorSound(s.tables, L.jobsOf, home, s.cursor)
    requires Consistent(L, s) && InRange(L, s.cursor) && s.reposLoaded && !s.complete && InBounds(lim, s)
    ensures Counted(L, s, AtRepos(gh, lim, s).s)
  {
    hide AtRuns, Page, InRange, CursorSound, WellFormed, Counted, NextRepo;
    var n := AtRepos(gh, lim, s).s;
    if s.cursor.repoOffset >= |s.repos| {
      EndAdds(gh, L, lim, s);
    } else if s.repoCount >= lim.maxRepos {
      StayAdds(L, s, n);
    } else if s.repos[s.cursor.repoOffset] == "" {
      NamelessAdds(L, s, n);
    } else {
      var repo := s.repos[s.cursor.repoOffset];
      if s.runsLoaded && s.runsRepo == Some(repo) {
        AtRunsAdds(gh, L, home, lim, s, repo);
      } else if s.pages < lim.maxPages {
        var r := gh(s.t, GetRuns(repo, s.cursor.runPage));
        assert r == RunsPage(Page(L.runsOf(repo), s.cursor.runPage));
        var s1 := s.(t := s.t + 1, pages := s.pages + 1, runs := r.runs, runsRepo := Some(repo), runsLoaded := true);
        AtRunsAdds(gh, L, home, lim, s1, repo);
        LoadedRunsAdd(L, s, s1, n);
      } else {
        StayAdds(L, s, n);
      }
    }
  }

  lemma IterateAdds(gh: GitHub, L: Listing, home: Homes, lim: Limits, s: Loop)
    requires Serves(gh, L) && WellFormed(L, home) && CursorSound(s.tables, L.jobsOf, home, s.cursor)
    requires Consistent(L, s) && InRange(L, s.cursor) && !s.complete && InBounds(lim, s) && s.pages < lim.maxPages
    ensures Counted(L, s, Iterate(gh, lim, s).s)
  {
    hide AtRepos, Page, InRange, CursorSound, WellFormed, Counted;
    if s.reposLoaded {
      AtReposAdds(gh, L, home, lim, s);
    } else {
      var r := gh(s.t, GetRepos(s.cursor.repoPage));
      assert r == ReposPage(Page(L.repos, s.cursor.repoPage));
      var s1 := s.(t := s.t + 1, pages := s.pages + 1, repos := r.repos, reposLoaded := true);
      AtReposAdds(gh, L, home, lim, s1);
      LoadedRunsAdd(L, s, s1, Iterate(gh, lim, s).s);
    }
  }

  // ---------------------------------------------------------------- a pass

  lemma {:induction false} RunLoopAdds(gh: GitHub, L: Listing, home: Homes, lim: Limits, s: Loop)
    requires Serves(gh, L) && WellFormed(L, home) && Consistent(L, s) && LoopSound(L.jobsOf, home, s)
    requires LimitsOk(lim) && !s.complete && InBounds(lim, s) && InRange(L, s.cursor)
    ensures Counted(L, s, RunLoop(gh, lim, s))
    decreases Fuel(lim, s)
  {
    ServesHonestly(gh, L, home);
    assert Counted(L, s, s);
    hide Iterate, Serves, WellFormed, Consistent, RunsSound, CursorSound, InRange, Adds, AddsAll, HonestJobs, HonestRuns, NotBefore, After;
    if s.pages < lim.maxPages {
      IterateBounded(gh, lim, s);
      IterateSound(gh, lim, s, L.jobsOf, home);
      IterateMoves(gh, L, lim, s);
      IterateAdds(gh, L, home, lim, s);
      var n := Iterate(gh, lim, s);
      if n.Again? {
        AgainGoesOn(gh, lim, s);
        RunLoopAdds(gh, L, home, lim, n.s);
        CountsOn(L, s, n.s, RunLoop(gh, lim, n.s));
      }
    }
  }

  lemma AgainGoesOn(gh: GitHub, lim: Limits, s: Loop)
    requires InBounds(lim, s) && !s.complete && Iterate(gh, lim, s).Again?
    ensures !Iterate(gh, lim, s).s.complete
  {
    hide StoreFetched, StorableJobs, JobReasons, FetchJobs, Unchanged, NextRepo, AdvanceRun, ResumeJobPage;
  }

  /** Main result: over a fixed listing, from any store whose complete marks are justified, a pass
      counts exactly the repositories and runs between its cursors, no job that is not there, and makes
      no more requests than there are pages in between and the two it holds in memory. */
  lemma PassAddsUp(gh: GitHub, L: Listing, home: Homes, lim: Limits, saved: Saved)
    requires Serves(gh, L) && WellFormed(L, home) && LimitsOk(lim) && MidCycle(L, home, saved)
    ensures var o, c := Pass(gh, lim, saved), saved.cursor;
            var st, d := o.status, o.saved.cursor;
            if st.traversalComplete then
              && st.repositories == |L.repos| - RepoIdx(c)
              && st.runs == OverRepos(ONE, L, |L.repos|) - Before(ONE, L, c)
              && 0 <= st.jobs <= OverRepos(ValidJobs(L), L, |L.repos|) - JobsBefore(L, c)
              && st.pages <= AllPages(L) - PagesBefore(L, c)
            else
              && InRange(L, d)
              && st.repositories == RepoIdx(d) - RepoIdx(c)
              && st.runs == Before(ONE, L, d) - Before(ONE, L, c)
              && 0 <= st.jobs <= JobsBefore(L, d) - JobsBefore(L, c)
              && st.pages <= PagesBefore(L, d) - PagesBefore(L, c) + 2
  {
    hide RunLoop, RunsSound, Serves, WellFormed, RepoDone, RunDone;
    RunLoopAdds(gh, L, home, lim, Start(saved));
    hide CursorSound, Covered;
    var r := RunLoop(gh, lim, Start(saved));
    if !r.complete {
      SkipsDoNotCount(L, r.cursor, r.skipped);
    }
  }

  lemma SkipsDoNotCount(L: Listing, c: Cursor, skipped: set<Reason>)
    requires InRange(L, c)
    ensures var d := c.(skipped := skipped);
            && InRange(L, d) && RepoIdx(d) == RepoIdx(c) && Before(ONE, L, d) == Before(ONE, L, c)
            && JobsBefore(L, d) == JobsBefore(L, c) && PagesBefore(L, d) == PagesBefore(L, c)
  {
    hide StorableJobs, OverRepos, OverRuns, RunPages;
    var d := c.(skipped := skipped);
    assert RepoAt(L, d) == RepoAt(L, c) && RunAt(L, d) == RunAt(L, c) && JobPos(L, d) == JobPos(L, c);
  }

  // ---------------------------------------------------------------- a cycle

  datatype Totals = Totals(passes: nat, repositories: int, runs: int, jobs: int, pages: int)

  /** What the passes of a cycle report, added up. */
  ghost function CycleTotals(gh: GitHub, L: Listing, home: Homes, lims: nat -> Limits, k: nat, saved: Saved): Totals
    requires Serves(gh, L) && WellFormed(L, home) && MidCycle(L, home, saved)
    requires forall i :: LimitsOk(lims(i)) && lims(i).maxPages >= 3
    decreases |L.repos| - RepoIdx(saved.cursor), RunsLeft(L, saved.cursor), JobPagesLeft(L, saved.cursor)
  {
    var o := Pass(gh, lims(k), saved);
    PassCovers(gh, L, home, lims(k), saved);
    if o.status.traversalComplete then Totals(1, o.status.repositories, o.status.runs, o.status.jobs, o.status.pages)
    else
      PassLeavesLess(gh, L, home, lims(k), saved);
      var rest := CycleTotals(gh, L, home, lims, k + 1, o.saved);
      Totals(rest.passes + 1, rest.repositories + o.status.repositories, rest.runs + o.status.runs,
             rest.jobs + o.status.jobs, rest.pages + o.status.pages)
  }

  /** However a cycle is cut into passes, they report each repository and each run that was left
      exactly once and no job twice, and two requests at most are made again for each pass. */
  lemma {:induction false} CycleAddsUp(gh: GitHub, L: Listing, home: Homes, lims: nat -> Limits, k: nat, saved: Saved)
    requires Serves(gh, L) && WellFormed(L, home) && MidCycle(L, home, saved)
    requires forall i :: LimitsOk(lims(i)) && lims(i).maxPages >= 3
    ensures var all, c := CycleTotals(gh, L, home, lims, k, saved), saved.cursor;
            && all.repositories == |L.repos| - RepoIdx(c)
            && all.runs == OverRepos(ONE, L, |L.repos|) - Before(ONE, L, c)
            && 0 <= all.jobs <= OverRepos(ValidJobs(L), L, |L.repos|) - JobsBefore(L, c)
            && all.pages <= AllPages(L) - PagesBefore(L, c) + 2 * (all.passes - 1)
    decreases |L.repos| - RepoIdx(saved.cursor), RunsLeft(L, saved.cursor), JobPagesLeft(L, saved.cursor)
  {
    hide Pass, Serves, WellFormed, Covered, RunsSound, CursorSound, InRange, Before, PagesBefore, JobsBefore, AllPages, OverRepos,
      RepoIdx, RunsLeft, JobPagesLeft, AllDone;
    PassCovers(gh, L, home, lims(k), saved);
    PassAddsUp(gh, L, home, lims(k), saved);
    var o := Pass(gh, lims(k), saved);
    if !o.status.traversalComplete {
      PassLeavesLess(gh, L, home, lims(k), saved);
      CycleAddsUp(gh, L, home, lims, k + 1, o.saved);
    }
  }

  /** Main result: a whole cycle reports each listed repository and each run of a named one once. */
  lemma WholeCycleAddsUp(gh: GitHub, L: Listing, home: Homes, lims: nat -> Limits, k: nat, saved: Saved)
    requires Serves(gh, L) && WellFormed(L, home) && MidCycle(L, home, saved) && saved.cursor == INITIAL
    requires forall i :: LimitsOk(lims(i)) && lims(i).maxPages >= 3
    ensures var all := CycleTotals(gh, L, home, lims, k, saved);
            && all.repositories == |L.repos| && all.runs == OverRepos(ONE, L, |L.repos|)
            && 0 <= all.jobs <= OverRepos(ValidJobs(L), L, |L.repos|)
            && all.pages <= AllPages(L) + 2 * (all.passes - 1)
  {
    CycleAddsUp(gh, L, home, lims, k, saved);
    hide CycleTotals, Serves, WellFormed, Covered, RunsSound, CursorSound, AllPages, StorableJobs;
    assert RepoIdx(INITIAL) == 0 && RunIdx(INITIAL) == 0 && JobPos(L, INITIAL) == 1;
    if |L.repos| > 0 {
      assert L.runsOf(L.repos[0])[..0] == [];
    }
  }
}
