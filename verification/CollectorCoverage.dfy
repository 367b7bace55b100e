/** Over a listing that does not change and answers every request, passes make progress,
    finitely many of them finish a cycle, and a finished cycle has missed nothing. */
module CollectorCoverage {
  import opened Common
  import opened JobMetrics
  import opened Collector
  import opened CollectorSoundness

  datatype Listing = Listing(repos: seq<string>, runsOf: string -> seq<RunItem>, jobsOf: JobLists)

  ghost predicate Serves(gh: GitHub, L: Listing) {
    && (forall t: nat, page | page >= 1 :: gh(t, GetRepos(page)) == ReposPage(Page(L.repos, page)))
    && (forall t: nat, repo, page | page >= 1 :: gh(t, GetRuns(repo, page)) == RunsPage(Page(L.runsOf(repo), page)))
    && (forall t: nat, repo, run, page | page >= 1 ::
          gh(t, GetJobs(repo, run, page)) == JobsPage(Page(L.jobsOf(repo, RunIdent(run)), page)))
  }

  // ---------------------------------------------------------------- positions

  function RepoPageAt(L: Listing, c: Cursor): seq<string>
    requires c.repoPage >= 1
  {
    Page(L.repos, c.repoPage)
  }

  /** The repository under the cursor, if any. */
  function RepoAt(L: Listing, c: Cursor): Option<string>
    requires CursorPos(c)
  {
    if c.repoOffset < |RepoPageAt(L, c)| then Some(RepoPageAt(L, c)[c.repoOffset]) else None
  }

  /** The run under the cursor, if any. */
  function RunAt(L: Listing, c: Cursor): Option<RunItem>
    requires CursorPos(c)
  {
    var repo := RepoAt(L, c);
    if repo.None? || repo.value == "" then None
    else
      var runs := Page(L.runsOf(repo.value), c.runPage);
      if c.runOffset < |runs| then Some(runs[c.runOffset]) else None
  }

  predicate CursorPos(c: Cursor) {
    c.repoPage >= 1 && c.repoOffset >= 0 && c.runPage >= 1 && c.runOffset >= 0 && c.jobPage >= 1
  }

  /** The job page at which the run under the cursor will be resumed. */
  function JobPos(L: Listing, c: Cursor): int
    requires CursorPos(c)
  {
    var run := RunAt(L, c);
    if run.Some? && Positive(run.value.id).Some? && CursorIdent(c) == RunIdent(run.value) then c.jobPage else 1
  }

  /** Lexicographic order on repository, run and job position. */
  predicate After(L: Listing, c: Cursor, d: Cursor)
    requires CursorPos(c) && CursorPos(d)
  {
    || c.repoPage < d.repoPage
    || (c.repoPage == d.repoPage && c.repoOffset < d.repoOffset)
    || (SameRepo(c, d) && c.runPage < d.runPage)
    || (SameRepo(c, d) && c.runPage == d.runPage && c.runOffset < d.runOffset)
    || (SamePlace(c, d) && JobPos(L, c) < JobPos(L, d))
  }

  predicate SameRepo(c: Cursor, d: Cursor) {
    c.repoPage == d.repoPage && c.repoOffset == d.repoOffset
  }

  predicate SamePlace(c: Cursor, d: Cursor) {
    SameRepo(c, d) && c.runPage == d.runPage && c.runOffset == d.runOffset
  }

  predicate NotBefore(L: Listing, c: Cursor, d: Cursor)
    requires CursorPos(c) && CursorPos(d)
  {
    After(L, c, d) || (SamePlace(c, d) && JobPos(L, c) == JobPos(L, d))
  }

  lemma AfterIsTransitive(L: Listing, a: Cursor, b: Cursor, c: Cursor)
    requires CursorPos(a) && CursorPos(b) && CursorPos(c)
    requires NotBefore(L, a, b) && NotBefore(L, b, c)
    ensures NotBefore(L, a, c)
    ensures After(L, a, b) || After(L, b, c) ==> After(L, a, c)
  {
    hide JobPos;
  }

  /** What the pass holds in memory are the pages under its cursor. */
  ghost predicate Consistent(L: Listing, s: Loop) {
    && CursorPos(s.cursor)
    && (s.reposLoaded ==> s.repos == RepoPageAt(L, s.cursor))
    && (s.runsLoaded ==> s.runsRepo.Some? && s.runs == Page(L.runsOf(s.runsRepo.value), s.cursor.runPage))
  }

  /** How many requests it takes to move the cursor: to see the end of the list or a nameless
      record takes one, to pass a run that need not be read takes two, to read jobs three. */
  function Needed(L: Listing, runs: RunTable, c: Cursor): int
    requires CursorPos(c)
  {
    if RepoAt(L, c).None? || RepoAt(L, c).value == "" then 1
    else
      var run := RunAt(L, c);
      if run.None? || Positive(run.value.id).None? || Unchanged(runs, RepoAt(L, c).value, run.value) then 2 else 3
  }

  // ---------------------------------------------------------------- one iteration

  /** An iteration moves the cursor forward unless it stops, and then only the cycle's end
      or a job page can have moved it. */
  ghost predicate Moves(L: Listing, s: Loop, n: Next)
    requires CursorPos(s.cursor)
  {
    (n.Stop? && n.s.complete)
    || (Consistent(L, n.s) && NotBefore(L, s.cursor, n.s.cursor) && (n.Again? ==> After(L, s.cursor, n.s.cursor)))
  }

  /** In a fixed listing a read never raises and never meets a bad page. */
  lemma {:induction false} FetchServed(
    gh: GitHub, L: Listing, t: nat, repo: string, run: RunItem, page: int, pages: int, budget: int)
    requires Serves(gh, L) && page >= 1
    ensures var f := FetchJobs(gh, t, repo, run, page, pages, budget);
            && f.Fetched?
            && f.problem == (if f.done then None else Some(PageCapReason))
            && (!f.done && pages < budget ==> f.nextPage > page)
    decreases budget - pages
  {
    if pages < budget {
      assert gh(t, GetJobs(repo, run, page)) == JobsPage(Page(L.jobsOf(repo, RunIdent(run)), page));
      hide Serves, Page;
      FetchServed(gh, L, t + 1, repo, run, page + 1, pages + 1, budget);
    }
  }

  lemma PastRunMoves(L: Listing, s: Loop, s1: Loop)
    requires Consistent(L, s) && s.runsLoaded && s.cursor.runOffset < |s.runs|
    requires s1.runs == s.runs && s1.repos == s.repos && s1.reposLoaded && s.reposLoaded && s1.runsLoaded
    requires s1.runsRepo == s.runsRepo && SamePlace(s.cursor, s1.cursor) && CursorPos(s1.cursor)
    ensures Consistent(L, PastRun(s1)) && After(L, s.cursor, PastRun(s1).cursor)
  {
    hide Page, JobPos;
  }

  predicate Progress(L: Listing, c: Cursor, s: Loop)
    requires CursorPos(c) && CursorPos(s.cursor)
  {
    s.complete || After(L, c, s.cursor)
  }

  lemma CollectRunMoves(gh: GitHub, L: Listing, lim: Limits, s: Loop, repo: string, run: RunItem)
    requires Serves(gh, L) && Consistent(L, s) && s.pages < lim.maxPages
    requires s.reposLoaded && s.runsLoaded && s.runsRepo == Some(repo)
    requires RepoAt(L, s.cursor) == Some(repo) && repo != ""
    requires s.cursor.runOffset < |s.runs| && run == s.runs[s.cursor.runOffset] && Positive(run.id).Some?
    ensures var n := CollectRun(gh, lim, s, repo, run);
            Moves(L, s, n) && CursorPos(n.s.cursor) && Progress(L, s.cursor, n.s)
  {
    hide StoreFetched, StorableJobs, JobReasons, FetchJobs, Serves, Page, PastRun;
    var (c, start) := ResumeJobPage(s.cursor, run);
    assert RunAt(L, s.cursor) == Some(run);
    FetchServed(gh, L, s.t, repo, run, start, s.pages, lim.maxPages);
    var n := CollectRun(gh, lim, s, repo, run);
    var f := FetchJobs(gh, s.t, repo, run, start, s.pages, lim.maxPages);
    if f.done {
      var s1 := s.(cursor := c, tables := StoreFetched(s.tables, repo, run, f), t := f.t, pages := f.pages,
                   jobCount := s.jobCount + |StorableJobs(f.jobs)|, partial := s.partial + JobReasons(f.jobs));
      assert n == Again(PastRun(s1));
      PastRunMoves(L, s, s1);
    } else {
      assert RunAt(L, n.s.cursor) == RunAt(L, s.cursor);
      assert JobPos(L, n.s.cursor) == f.nextPage > start >= JobPos(L, s.cursor);
    }
  }

  lemma AtRunsMoves(gh: GitHub, L: Listing, lim: Limits, s: Loop, repo: string)
    requires Serves(gh, L) && Consistent(L, s) && s.reposLoaded && s.runsLoaded && s.runsRepo == Some(repo)
    requires RepoAt(L, s.cursor) == Some(repo) && repo != ""
    ensures var n := AtRuns(gh, lim, s, repo);
            Moves(L, s, n) && CursorPos(n.s.cursor)
    ensures s.runCount < lim.maxRuns && !s.complete ==>
              (Progress(L, s.cursor, AtRuns(gh, lim, s, repo).s)
               <==> Needed(L, s.tables.runs, s.cursor) == 2 || s.pages < lim.maxPages)
  {
    hide CollectRun, Serves, Page, Unchanged, PastRun;
    if s.cursor.runOffset < |s.runs| && s.runCount < lim.maxRuns {
      var run := s.runs[s.cursor.runOffset];
      assert RunAt(L, s.cursor) == Some(run);
      if Positive(run.id).None? {
        PastRunMoves(L, s, s.(partial := s.partial + {RunIdInvalid}, skipped := s.skipped + {RunIdInvalid}));
      } else if Unchanged(s.tables.runs, repo, run) {
        PastRunMoves(L, s, s);
      } else if s.pages < lim.maxPages {
        CollectRunMoves(gh, L, lim, s, repo, run);
      }
    }
  }

  lemma AtReposMoves(gh: GitHub, L: Listing, lim: Limits, s: Loop)
    requires Serves(gh, L) && Consistent(L, s) && s.reposLoaded && InBounds(lim, s)
    ensures var n := AtRepos(gh, lim, s);
            Moves(L, s, n) && CursorPos(n.s.cursor)
    ensures s.repoCount < lim.maxRepos && s.runCount < lim.maxRuns && !s.complete && !s.runsLoaded ==>
              (Progress(L, s.cursor, AtRepos(gh, lim, s).s)
               <==> s.pages + Needed(L, s.tables.runs, s.cursor) - 1 <= lim.maxPages)
  {
    hide AtRuns, Page, Unchanged;
    if s.cursor.repoOffset < |s.repos| && s.repoCount < lim.maxRepos {
      var repo := s.repos[s.cursor.repoOffset];
      if repo != "" {
        if s.runsLoaded && s.runsRepo == Some(repo) {
          hide Serves;
          AtRunsMoves(gh, L, lim, s, repo);
        } else if s.pages < lim.maxPages {
          var r := gh(s.t, GetRuns(repo, s.cursor.runPage));
          assert r == RunsPage(Page(L.runsOf(repo), s.cursor.runPage));
          hide Serves;
          AtRunsMoves(gh, L, lim, s.(t := s.t + 1, pages := s.pages + 1, runs := r.runs, runsRepo := Some(repo),
                                     runsLoaded := true), repo);
        }
      }
    }
  }

  lemma IterateMoves(gh: GitHub, L: Listing, lim: Limits, s: Loop)
    requires Serves(gh, L) && Consistent(L, s) && InBounds(lim, s) && s.pages < lim.maxPages
    ensures var n := Iterate(gh, lim, s);
            Moves(L, s, n) && CursorPos(n.s.cursor)
    ensures s.repoCount < lim.maxRepos && s.runCount < lim.maxRuns && !s.complete && !s.reposLoaded ==>
              (Progress(L, s.cursor, Iterate(gh, lim, s).s)
               <==> s.pages + Needed(L, s.tables.runs, s.cursor) <= lim.maxPages)
  {
    hide AtRepos, Page, Needed;
    if s.reposLoaded {
      hide Serves;
      AtReposMoves(gh, L, lim, s);
    } else {
      var r := gh(s.t, GetRepos(s.cursor.repoPage));
      assert r == ReposPage(Page(L.repos, s.cursor.repoPage));
      hide Serves;
      AtReposMoves(gh, L, lim, s.(t := s.t + 1, pages := s.pages + 1, repos := r.repos, reposLoaded := true));
    }
  }

  // ---------------------------------------------------------------- whole passes

  lemma {:induction false} RunLoopMoves(gh: GitHub, L: Listing, lim: Limits, s: Loop)
    requires Serves(gh, L) && LimitsOk(lim) && Consistent(L, s) && InBounds(lim, s)
    ensures var r := RunLoop(gh, lim, s);
            CursorPos(r.cursor) && (r.complete || NotBefore(L, s.cursor, r.cursor))
    decreases Fuel(lim, s)
  {
    hide Iterate, Consistent, NotBefore, After, Serves;
    assert NotBefore(L, s.cursor, s.cursor) by { NotBeforeSelf(L, s.cursor); }
    if s.pages < lim.maxPages {
      IterateBounded(gh, lim, s);
      IterateMoves(gh, L, lim, s);
      var n := Iterate(gh, lim, s);
      if n.Again? {
        RunLoopMoves(gh, L, lim, n.s);
        if !RunLoop(gh, lim, n.s).complete {
          AfterIsTransitive(L, s.cursor, n.s.cursor, RunLoop(gh, lim, n.s).cursor);
        }
      }
    }
  }

  lemma NotBeforeSelf(L: Listing, c: Cursor)
    requires CursorPos(c)
    ensures NotBefore(L, c, c)
  {
  }

  lemma RunLoopProgress(gh: GitHub, L: Listing, lim: Limits, s: Loop)
    requires Serves(gh, L) && LimitsOk(lim) && Consistent(L, s) && InBounds(lim, s)
    requires s.pages == 0 && s.repoCount == 0 && s.runCount == 0 && !s.reposLoaded && !s.complete
    ensures CursorPos(RunLoop(gh, lim, s).cursor)
    ensures Progress(L, s.cursor, RunLoop(gh, lim, s)) <==> Needed(L, s.tables.runs, s.cursor) <= lim.maxPages
  {
    hide Iterate, Consistent, NotBefore, After, Serves, Needed;
    IterateBounded(gh, lim, s);
    IterateMoves(gh, L, lim, s);
    var n := Iterate(gh, lim, s);
    if n.Again? {
      RunLoopMoves(gh, L, lim, n.s);
      var r := RunLoop(gh, lim, n.s);
      if !r.complete {
        assert NotBefore(L, s.cursor, n.s.cursor);
        AfterIsTransitive(L, s.cursor, n.s.cursor, r.cursor);
      }
    }
  }

  /** Main result: from any saved cursor, a pass completes the cycle or moves the saved
      cursor strictly forward if and only if its page cap covers the requests that the
      record under the cursor needs. */
  lemma PassAdvancesIff(gh: GitHub, L: Listing, lim: Limits, saved: Saved)
    requires Serves(gh, L) && LimitsOk(lim)
    ensures var o := Pass(gh, lim, saved);
            var c := Sanitize(saved.cursor);
            && CursorPos(o.saved.cursor)
            && (o.status.traversalComplete || After(L, c, o.saved.cursor)
                <==> Needed(L, saved.tables.runs, c) <= lim.maxPages)
  {
    hide RunLoop, Serves, Needed;
    RunLoopProgress(gh, L, lim, Start(saved));
  }

  /** So a page cap of three always makes progress ... */
  lemma ThreePagesAdvance(gh: GitHub, L: Listing, lim: Limits, saved: Saved)
    requires Serves(gh, L) && LimitsOk(lim) && lim.maxPages >= 3
    ensures var o := Pass(gh, lim, saved);
            CursorPos(o.saved.cursor)
            && (o.status.traversalComplete || After(L, Sanitize(saved.cursor), o.saved.cursor))
  {
    hide Pass, Serves, After;
    PassAdvancesIff(gh, L, lim, saved);
  }

  /** ... and the accepted page caps one and two do not: where the record under the cursor takes
      three requests, a pass reads no job and the cursor stays. */
  lemma StallsInPlace(gh: GitHub, L: Listing, lim: Limits, saved: Saved)
    requires Serves(gh, L) && LimitsOk(lim) && lim.maxPages < 3 && CursorOk(saved.cursor)
    requires Needed(L, saved.tables.runs, saved.cursor) == 3
    ensures var o := Pass(gh, lim, saved);
            !o.status.traversalComplete && o.saved.cursor == saved.cursor && o.saved.tables == saved.tables
  {
    hide CollectRun, Unchanged, Page;
    var s := Start(saved);
    var n := Iterate(gh, lim, s);
    assert n.Stop?;
  }

  /** Main result: an unread run under the cursor is still unread after any number of passes with
      such caps, over any listing. */
  lemma {:induction false} FewerPagesStall(gh: GitHub, L: Listing, lims: seq<Limits>, saved: Saved)
    requires Serves(gh, L) && CursorOk(saved.cursor)
    requires forall lim :: lim in lims ==> LimitsOk(lim) && lim.maxPages < 3
    requires Needed(L, saved.tables.runs, saved.cursor) == 3
    ensures PassMany(gh, lims, saved).cursor == saved.cursor && PassMany(gh, lims, saved).tables == saved.tables
  {
    hide Pass, Serves, Needed;
    if lims != [] {
      FewerPagesStall(gh, L, lims[..|lims| - 1], saved);
      StallsInPlace(gh, L, lims[|lims| - 1], PassMany(gh, lims[..|lims| - 1], saved));
    }
  }

  function OneRun(): Listing {
    Listing(["r"], (repo: string) => [RunItem(Some(1), Some(1), Some("u"), true, true)], (repo: string, ident: Ident) => [])
  }

  /** A single run that was never read is such a record, from the empty store on. */
  lemma OneRunIsNeverRead(gh: GitHub, lims: seq<Limits>)
    requires Serves(gh, OneRun()) && forall lim :: lim in lims ==> LimitsOk(lim) && lim.maxPages < 3
    ensures PassMany(gh, lims, FRESH).cursor == INITIAL && PassMany(gh, lims, FRESH).tables == FRESH.tables
  {
    var L := OneRun();
    assert RepoAt(L, INITIAL) == Some("r");
    assert RunAt(L, INITIAL) == Some(L.runsOf("r")[0]);
    hide PassMany, Serves;
    FewerPagesStall(gh, L, lims, FRESH);
  }

  // ---------------------------------------------------------------- nothing is missed

  /** Within a repository an identifier names one run, and only that repository lists it. */
  ghost predicate WellFormed(L: Listing, home: Homes) {
    && (forall repo, run :: run in L.runsOf(repo) ==> Belongs(home, repo, run))
    && (forall repo, a, b :: a in L.runsOf(repo) && b in L.runsOf(repo) && Positive(a.id).Some? && a.id == b.id ==> a == b)
  }

  function RepoIdx(c: Cursor): int {
    PAGE_SIZE * (c.repoPage - 1) + c.repoOffset
  }

  function RunIdx(c: Cursor): int {
    PAGE_SIZE * (c.runPage - 1) + c.runOffset
  }

  lemma PageIndex<T>(xs: seq<T>, page: int, offset: int)
    requires page >= 1 && 0 <= offset < PAGE_SIZE
    ensures offset < |Page(xs, page)| <==> PAGE_SIZE * (page - 1) + offset < |xs|
    ensures offset < |Page(xs, page)| ==> Page(xs, page)[offset] == xs[PAGE_SIZE * (page - 1) + offset]
    ensures |Page(xs, page)| == Max(0, Min(PAGE_SIZE, |xs| - PAGE_SIZE * (page - 1)))
  {
  }

  /** The cursor stands on a record of the listing, or just past the last one. */
  predicate InRange(L: Listing, c: Cursor) {
    && CursorPos(c) && c.repoOffset < PAGE_SIZE && c.runOffset < PAGE_SIZE && RepoIdx(c) <= |L.repos|
    && (if RepoIdx(c) < |L.repos| && L.repos[RepoIdx(c)] != ""
        then RunIdx(c) <= |L.runsOf(L.repos[RepoIdx(c)])|
        else c.runPage == 1 && c.runOffset == 0)
  }

  /** A run was handled: its row holds this very state and every job of it that can be
      stored is stored. A record without a valid identifier has left a reason. */
  ghost predicate RunDone(tables: Tables, skipped: set<Reason>, L: Listing, repo: string, run: RunItem) {
    if Positive(run.id).None? then RunIdInvalid in skipped
    else
      && (repo, run.id.value) in tables.runs
      && RowIdent(run.id.value, tables.runs[(repo, run.id.value)]) == RunIdent(run)
      && ValidStored(tables.jobs, L.jobsOf, repo, run.id.value, L.jobsOf(repo, RunIdent(run)))
  }

  ghost predicate RepoDone(tables: Tables, skipped: set<Reason>, L: Listing, repo: string) {
    if repo == "" then RepositoryMissingName in skipped
    else forall i | 0 <= i < |L.runsOf(repo)| :: RunDone(tables, skipped, L, repo, L.runsOf(repo)[i])
  }

  ghost predicate AllDone(tables: Tables, skipped: set<Reason>, L: Listing) {
    forall i | 0 <= i < |L.repos| :: RepoDone(tables, skipped, L, L.repos[i])
  }

  /** Everything before the cursor was handled. */
  ghost predicate Covered(tables: Tables, skipped: set<Reason>, L: Listing, c: Cursor)
    requires InRange(L, c)
  {
    && (forall i | 0 <= i < RepoIdx(c) :: RepoDone(tables, skipped, L, L.repos[i]))
    && (RepoIdx(c) < |L.repos| && L.repos[RepoIdx(c)] != "" ==>
          forall i | 0 <= i < RunIdx(c) ::
            RunDone(tables, skipped, L, L.repos[RepoIdx(c)], L.runsOf(L.repos[RepoIdx(c)])[i]))
  }

  /** Writing one run's batch undoes no handled run. */
  lemma SaveKeepsDone(
    L: Listing, home: Homes, tables: Tables, skipped: set<Reason>, repo: string, run: RunItem,
    jobs: seq<JobItem>, complete: bool, reasons: set<Reason>, r: string, other: RunItem)
    requires WellFormed(L, home) && Positive(run.id).Some? && run in L.runsOf(repo) && other in L.runsOf(r)
    requires forall j :: j in jobs ==> Storable(j) && j in L.jobsOf(repo, RunIdent(run))
    requires RunDone(tables, skipped, L, r, other)
    ensures RunDone(SaveBatch(tables, repo, run, jobs, complete, reasons), skipped, L, r, other)
  {
    if Positive(other.id).Some? {
      if r == repo && other.id == run.id {
        assert other == run;
      }
      StoredStays(tables.jobs, L.jobsOf, repo, RunIdent(run), jobs, r, RunIdent(other), L.jobsOf(r, RunIdent(other)));
    }
  }

  lemma SaveKeepsCovered(
    L: Listing, home: Homes, tables: Tables, skipped: set<Reason>, repo: string, run: RunItem,
    jobs: seq<JobItem>, complete: bool, reasons: set<Reason>, c: Cursor)
    requires WellFormed(L, home) && Positive(run.id).Some? && run in L.runsOf(repo)
    requires forall j :: j in jobs ==> Storable(j) && j in L.jobsOf(repo, RunIdent(run))
    requires InRange(L, c) && Covered(tables, skipped, L, c)
    ensures Covered(SaveBatch(tables, repo, run, jobs, complete, reasons), skipped, L, c)
  {
    hide SaveBatch, WellFormed, RunDone;
    var after := SaveBatch(tables, repo, run, jobs, complete, reasons);
    forall r, i | 0 <= i < |L.runsOf(r)| && RunDone(tables, skipped, L, r, L.runsOf(r)[i])
      ensures RunDone(after, skipped, L, r, L.runsOf(r)[i])
    {
      SaveKeepsDone(L, home, tables, skipped, repo, run, jobs, complete, reasons, r, L.runsOf(r)[i]);
    }
    forall i | 0 <= i < RepoIdx(c) ensures RepoDone(after, skipped, L, L.repos[i]) {
      assert RepoDone(tables, skipped, L, L.repos[i]);
    }
  }

  lemma StoreKeepsCovered(
    L: Listing, home: Homes, tables: Tables, skipped: set<Reason>, repo: string, run: RunItem, f: Fetched, c: Cursor)
    requires WellFormed(L, home) && Positive(run.id).Some? && run in L.runsOf(repo) && f.Fetched?
    requires forall j :: j in f.jobs ==> j in L.jobsOf(repo, RunIdent(run))
    requires InRange(L, c) && Covered(tables, skipped, L, c)
    ensures Covered(StoreFetched(tables, repo, run, f), skipped, L, c)
  {
    hide SaveBatch, WellFormed, InRange, Covered, JobReasons;
    var reasons := JobReasons(f.jobs);
    var malformed := if f.problem == Some(MalformedJobsPage) then {MalformedJobsPage} else {};
    SaveKeepsCovered(L, home, tables, skipped, repo, run, StorableJobs(f.jobs), f.done && reasons == {}, reasons + malformed, c);
  }

  lemma UnchangedIsDone(L: Listing, home: Homes, tables: Tables, skipped: set<Reason>, repo: string, run: RunItem)
    requires RunsSound(tables, L.jobsOf) && Positive(run.id).Some? && Unchanged(tables.runs, repo, run)
    ensures RunDone(tables, skipped, L, repo, run)
  {
    assert RowSound(tables, L.jobsOf, repo, run.id.value);
  }

  /** Past a handled run, everything before the cursor is handled. */
  lemma PastRunCovers(
    L: Listing, tables: Tables, skipped: set<Reason>, c: Cursor, c1: Cursor, repo: string, runs: seq<RunItem>, run: RunItem)
    requires InRange(L, c) && Covered(tables, skipped, L, c)
    requires RepoAt(L, c) == Some(repo) && repo != ""
    requires runs == Page(L.runsOf(repo), c.runPage) && c.runOffset < |runs| && run == runs[c.runOffset]
    requires RunDone(tables, skipped, L, repo, run)
    requires SamePlace(c, c1)
    ensures InRange(L, AdvanceRun(c1, |runs|).0)
    ensures Covered(tables, skipped, L, AdvanceRun(c1, |runs|).0)
  {
    PageIndex(L.repos, c.repoPage, c.repoOffset);
    PageIndex(L.runsOf(repo), c.runPage, c.runOffset);
    hide RunDone, RepoDone, Page;
    var d := AdvanceRun(c1, |runs|).0;
    assert RepoIdx(d) == RepoIdx(c) && RunIdx(d) == RunIdx(c) + 1;
  }

  /** Past a handled repository, everything before the cursor is handled. */
  lemma NextRepoCovers(L: Listing, tables: Tables, skipped: set<Reason>, c: Cursor, repo: string, repos: seq<string>)
    requires InRange(L, c) && Covered(tables, skipped, L, c)
    requires repos == RepoPageAt(L, c) && RepoAt(L, c) == Some(repo)
    requires RepoDone(tables, skipped, L, repo)
    ensures InRange(L, NextRepo(c, |repos|).0)
    ensures Covered(tables, skipped, L, NextRepo(c, |repos|).0)
  {
    PageIndex(L.repos, c.repoPage, c.repoOffset);
    hide RunDone, RepoDone, Page;
    var d := NextRepo(c, |repos|).0;
    assert RepoIdx(d) == RepoIdx(c) + 1 && RunIdx(d) == 0;
  }

  lemma CoveredGrows(L: Listing, tables: Tables, skipped: set<Reason>, more: set<Reason>, c: Cursor)
    requires InRange(L, c) && Covered(tables, skipped, L, c) && skipped <= more
    ensures Covered(tables, more, L, c)
  {
    forall i | 0 <= i < RepoIdx(c) ensures RepoDone(tables, more, L, L.repos[i]) {
      assert RepoDone(tables, skipped, L, L.repos[i]);
      if L.repos[i] != "" {
        forall k | 0 <= k < |L.runsOf(L.repos[i])| ensures RunDone(tables, more, L, L.repos[i], L.runsOf(L.repos[i])[k]) {
          assert RunDone(tables, skipped, L, L.repos[i], L.runsOf(L.repos[i])[k]);
        }
      }
    }
    if RepoIdx(c) < |L.repos| && L.repos[RepoIdx(c)] != "" {
      var repo := L.repos[RepoIdx(c)];
      forall i | 0 <= i < RunIdx(c) ensures RunDone(tables, more, L, repo, L.runsOf(repo)[i]) {
        assert RunDone(tables, skipped, L, repo, L.runsOf(repo)[i]);
      }
    }
  }

  ghost predicate Covers(L: Listing, n: Next) {
    if n.Stop? && n.s.complete then n.s.cursor == INITIAL && AllDone(n.s.tables, n.s.skipped, L)
    else !n.s.complete && InRange(L, n.s.cursor) && Covered(n.s.tables, n.s.skipped, L, n.s.cursor)
  }

  lemma CoveredSamePlace(L: Listing, tables: Tables, skipped: set<Reason>, c: Cursor, d: Cursor)
    requires InRange(L, c) && Covered(tables, skipped, L, c) && SamePlace(c, d) && CursorPos(d)
    ensures InRange(L, d) && Covered(tables, skipped, L, d)
  {
    hide RepoDone, RunDone;
  }

  /** A batch that read a run to its end has handled the run. */
  lemma PrefixDone(L: Listing, tables: Tables, skipped: set<Reason>, repo: string, run: RunItem)
    requires Positive(run.id).Some?
    requires PrefixRead(tables, L.jobsOf, repo, RunIdent(run), |L.jobsOf(repo, RunIdent(run))|)
    ensures RunDone(tables, skipped, L, repo, run)
  {
    var xs := L.jobsOf(repo, RunIdent(run));
    assert xs[..|xs|] == xs;
  }

  lemma ServesHonestly(gh: GitHub, L: Listing, home: Homes)
    requires Serves(gh, L) && WellFormed(L, home)
    ensures HonestJobs(gh, L.jobsOf) && HonestRuns(gh, home)
  {
    forall t: nat, repo, page, run |
      page >= 1 && gh(t, GetRuns(repo, page)).RunsPage? && run in gh(t, GetRuns(repo, page)).runs
      ensures Belongs(home, repo, run)
    {
      assert run in Page(L.runsOf(repo), page);
      assert run in L.runsOf(repo);
    }
  }

  lemma CollectRunCovers(gh: GitHub, L: Listing, home: Homes, lim: Limits, s: Loop, repo: string, run: RunItem)
    requires Serves(gh, L) && WellFormed(L, home) && Consistent(L, s) && LoopSound(L.jobsOf, home, s)
    requires !s.complete && s.runsLoaded && s.runsRepo == Some(repo)
    requires RepoAt(L, s.cursor) == Some(repo) && repo != "" && run in L.runsOf(repo)
    requires s.cursor.runOffset < |s.runs| && run == s.runs[s.cursor.runOffset] && Positive(run.id).Some?
    requires InRange(L, s.cursor) && Covered(s.tables, s.skipped, L, s.cursor)
    ensures Covers(L, CollectRun(gh, lim, s, repo, run))
  {
    ServesHonestly(gh, L, home);
    assert Belongs(home, repo, run);
    hide StoreFetched, StorableJobs, JobReasons, FetchJobs, Serves, Page, WellFormed, HonestJobs, HonestRuns,
      RunsSound, PrefixRead, Covered, InRange, RunDone, AdvanceRun;
    ResumeSound(s.tables, L.jobsOf, home, s.cursor, repo, run);
    var (c, start) := ResumeJobPage(s.cursor, run);
    FetchServed(gh, L, s.t, repo, run, start, s.pages, lim.maxPages);
    BatchSound(gh, s.tables, L.jobsOf, repo, run, start, s.t, s.pages, lim.maxPages);
    var f := FetchJobs(gh, s.t, repo, run, start, s.pages, lim.maxPages);
    var after := StoreFetched(s.tables, repo, run, f);
    StoreKeepsCovered(L, home, s.tables, s.skipped, repo, run, f, s.cursor);
    if f.done {
      PrefixDone(L, after, s.skipped, repo, run);
      PastRunCovers(L, after, s.skipped, s.cursor, c, repo, s.runs, run);
    } else {
      CoveredSamePlace(L, after, s.skipped, s.cursor, CollectRun(gh, lim, s, repo, run).s.cursor);
    }
  }

  lemma AtRunsCovers(gh: GitHub, L: Listing, home: Homes, lim: Limits, s: Loop, repo: string)
    requires Serves(gh, L) && WellFormed(L, home) && Consistent(L, s) && LoopSound(L.jobsOf, home, s)
    requires !s.complete && s.reposLoaded && s.runsLoaded && s.runsRepo == Some(repo)
    requires RepoAt(L, s.cursor) == Some(repo) && repo != ""
    requires InRange(L, s.cursor) && Covered(s.tables, s.skipped, L, s.cursor)
    ensures Covers(L, AtRuns(gh, lim, s, repo))
  {
    PageIndex(L.repos, s.cursor.repoPage, s.cursor.repoOffset);
    PageIndex(L.runsOf(repo), s.cursor.runPage, s.cursor.runOffset);
    hide CollectRun, Serves, Page, Unchanged, RunDone, WellFormed, RunsSound, AdvanceRun, NextRepo;
    if s.cursor.runOffset >= |s.runs| {
      NextRepoCovers(L, s.tables, s.skipped, s.cursor, repo, s.repos);
    } else if s.runCount < lim.maxRuns {
      var run := s.runs[s.cursor.runOffset];
      hide Covered, InRange;
      if Positive(run.id).None? {
        var skipped := s.skipped + {RunIdInvalid};
        CoveredGrows(L, s.tables, s.skipped, skipped, s.cursor);
        InvalidIsDone(L, s.tables, skipped, repo, run);
        PastRunCovers(L, s.tables, skipped, s.cursor, s.cursor, repo, s.runs, run);
      } else if Unchanged(s.tables.runs, repo, run) {
        UnchangedIsDone(L, home, s.tables, s.skipped, repo, run);
        PastRunCovers(L, s.tables, s.skipped, s.cursor, s.cursor, repo, s.runs, run);
      } else if s.pages < lim.maxPages {
        CollectRunCovers(gh, L, home, lim, s, repo, run);
      }
    }
  }

  lemma InvalidIsDone(L: Listing, tables: Tables, skipped: set<Reason>, repo: string, run: RunItem)
    requires Positive(run.id).None? && RunIdInvalid in skipped
    ensures RunDone(tables, skipped, L, repo, run)
  {
  }

  lemma EndCovers(gh: GitHub, L: Listing, lim: Limits, s: Loop)
    requires Consistent(L, s) && s.reposLoaded && s.cursor.repoOffset >= |s.repos|
    requires !s.complete && s.reposLoaded && InBounds(lim, s)
    requires InRange(L, s.cursor) && Covered(s.tables, s.skipped, L, s.cursor)
    ensures Covers(L, AtRepos(gh, lim, s))
  {
    PageIndex(L.repos, s.cursor.repoPage, s.cursor.repoOffset);
    hide AtRuns, Page, RunDone, RepoDone;
  }

  lemma NamelessCovers(gh: GitHub, L: Listing, lim: Limits, s: Loop)
    requires Consistent(L, s) && s.reposLoaded && s.cursor.repoOffset < |s.repos| && s.repos[s.cursor.repoOffset] == ""
    requires !s.complete && s.reposLoaded && InBounds(lim, s)
    requires InRange(L, s.cursor) && Covered(s.tables, s.skipped, L, s.cursor)
    ensures Covers(L, AtRepos(gh, lim, s))
  {
    hide AtRuns, Page, RunDone, Covered, InRange, NextRepo;
    var skipped := s.skipped + {RepositoryMissingName};
    CoveredGrows(L, s.tables, s.skipped, skipped, s.cursor);
    NextRepoCovers(L, s.tables, skipped, s.cursor, "", s.repos);
  }

  lemma AtReposCovers(gh: GitHub, L: Listing, home: Homes, lim: Limits, s: Loop)
    requires Serves(gh, L) && WellFormed(L, home) && Consistent(L, s) && LoopSound(L.jobsOf, home, s)
    requires !s.complete && s.reposLoaded && InBounds(lim, s)
    requires InRange(L, s.cursor) && Covered(s.tables, s.skipped, L, s.cursor)
    ensures Covers(L, AtRepos(gh, lim, s))
  {
    hide AtRuns, Page, Covered, InRange, RunsSound, CursorSound, WellFormed, Positive;
    if s.cursor.repoOffset >= |s.repos| {
      EndCovers(gh, L, lim, s);
    } else if s.repos[s.cursor.repoOffset] == "" {
      NamelessCovers(gh, L, lim, s);
    } else if s.repoCount < lim.maxRepos {
      var repo := s.repos[s.cursor.repoOffset];
      if s.runsLoaded && s.runsRepo == Some(repo) {
        AtRunsCovers(gh, L, home, lim, s, repo);
      } else if s.pages < lim.maxPages {
        var r := gh(s.t, GetRuns(repo, s.cursor.runPage));
        assert r == RunsPage(Page(L.runsOf(repo), s.cursor.runPage));
        RunsBelong(L, home, repo, s.cursor.runPage);
        AtRunsCovers(gh, L, home, lim, s.(t := s.t + 1, pages := s.pages + 1, runs := r.runs, runsRepo := Some(repo),
                                          runsLoaded := true), repo);
      }
    }
  }

  lemma RunsBelong(L: Listing, home: Homes, repo: string, page: int)
    requires WellFormed(L, home) && page >= 1
    ensures forall run :: run in Page(L.runsOf(repo), page) ==> Belongs(home, repo, run)
  {
  }

  lemma IterateCovers(gh: GitHub, L: Listing, home: Homes, lim: Limits, s: Loop)
    requires Serves(gh, L) && WellFormed(L, home) && Consistent(L, s) && LoopSound(L.jobsOf, home, s)
    requires !s.complete && InBounds(lim, s) && s.pages < lim.maxPages
    requires InRange(L, s.cursor) && Covered(s.tables, s.skipped, L, s.cursor)
    ensures Covers(L, Iterate(gh, lim, s))
  {
    hide AtRepos, Page, Covered, InRange, RunsSound, CursorSound, WellFormed;
    if s.reposLoaded {
      AtReposCovers(gh, L, home, lim, s);
    } else {
      var r := gh(s.t, GetRepos(s.cursor.repoPage));
      assert r == ReposPage(Page(L.repos, s.cursor.repoPage));
      AtReposCovers(gh, L, home, lim, s.(t := s.t + 1, pages := s.pages + 1, repos := r.repos, reposLoaded := true));
    }
  }

  lemma {:induction false} RunLoopCovers(gh: GitHub, L: Listing, home: Homes, lim: Limits, s: Loop)
    requires Serves(gh, L) && WellFormed(L, home) && Consistent(L, s) && LoopSound(L.jobsOf, home, s)
    requires LimitsOk(lim) && !s.complete && InBounds(lim, s)
    requires InRange(L, s.cursor) && Covered(s.tables, s.skipped, L, s.cursor)
    ensures var r := RunLoop(gh, lim, s);
            && LoopSound(L.jobsOf, home, r)
            && if r.complete then r.cursor == INITIAL && AllDone(r.tables, r.skipped, L)
               else InRange(L, r.cursor) && Covered(r.tables, r.skipped, L, r.cursor)
    decreases Fuel(lim, s)
  {
    ServesHonestly(gh, L, home);
    hide Iterate, Serves, WellFormed, Consistent, LoopSound, InRange, Covered, AllDone, HonestJobs, HonestRuns, NotBefore, After;
    if s.pages < lim.maxPages {
      IterateBounded(gh, lim, s);
      IterateSound(gh, lim, s, L.jobsOf, home);
      IterateMoves(gh, L, lim, s);
      IterateCovers(gh, L, home, lim, s);
      if Iterate(gh, lim, s).Again? {
        RunLoopCovers(gh, L, home, lim, Iterate(gh, lim, s).s);
      }
    }
  }

  /** What holds between the passes of a cycle. */
  ghost predicate MidCycle(L: Listing, home: Homes, saved: Saved) {
    && SavedSound(L.jobsOf, home, saved)
    && InRange(L, saved.cursor)
    && Covered(saved.tables, saved.cursor.skipped, L, saved.cursor)
  }

  lemma AllDoneGrows(L: Listing, tables: Tables, skipped: set<Reason>, more: set<Reason>)
    requires AllDone(tables, skipped, L) && skipped <= more
    ensures AllDone(tables, more, L)
  {
    forall i | 0 <= i < |L.repos| ensures RepoDone(tables, more, L, L.repos[i]) {
      assert RepoDone(tables, skipped, L, L.repos[i]);
      if L.repos[i] != "" {
        forall k | 0 <= k < |L.runsOf(L.repos[i])| ensures RunDone(tables, more, L, L.repos[i], L.runsOf(L.repos[i])[k]) {
          assert RunDone(tables, skipped, L, L.repos[i], L.runsOf(L.repos[i])[k]);
        }
      }
    }
  }

  lemma PassCovers(gh: GitHub, L: Listing, home: Homes, lim: Limits, saved: Saved)
    requires Serves(gh, L) && WellFormed(L, home) && LimitsOk(lim) && MidCycle(L, home, saved)
    ensures var o := Pass(gh, lim, saved);
            && MidCycle(L, home, o.saved)
            && (o.status.traversalComplete ==> o.saved.cursor == INITIAL && AllDone(o.saved.tables, o.status.partial, L))
  {
    ServesHonestly(gh, L, home);
    PassKeepsSound(gh, lim, saved, L.jobsOf, home);
    hide RunLoop, RunsSound, CursorSound, AllDone, Serves, WellFormed, HonestJobs, HonestRuns, RepoDone, RunDone;
    RunLoopCovers(gh, L, home, lim, Start(saved));
    var r := RunLoop(gh, lim, Start(saved));
    if r.complete {
      AllDoneGrows(L, r.tables, r.skipped, r.partial + r.skipped);
    } else {
      CoveredSamePlace(L, r.tables, r.skipped, r.cursor, r.cursor.(skipped := r.skipped));
    }
  }

  // ---------------------------------------------------------------- a cycle ends

  function RunsLeft(L: Listing, c: Cursor): int
    requires InRange(L, c)
  {
    if RepoIdx(c) < |L.repos| && L.repos[RepoIdx(c)] != "" then |L.runsOf(L.repos[RepoIdx(c)])| - RunIdx(c) else 0
  }

  function JobPagesLeft(L: Listing, c: Cursor): int
    requires InRange(L, c)
  {
    var run := RunAt(L, c);
    if run.None? then 0
    else |L.jobsOf(RepoAt(L, c).value, RunIdent(run.value))| / PAGE_SIZE + 1 - JobPos(L, c)
  }

  lemma JobPagesLeftIsNat(L: Listing, home: Homes, saved: Saved)
    requires WellFormed(L, home) && MidCycle(L, home, saved)
    requires RunAt(L, saved.cursor).Some?
    ensures JobPagesLeft(L, saved.cursor) >= 0
  {
    hide Covered, RunsSound;
    var c := saved.cursor;
    var repo, run := RepoAt(L, c).value, RunAt(L, c).value;
    assert run in L.runsOf(repo);
    assert Belongs(home, repo, run);
  }

  /** A pass that does not finish the cycle leaves less to do. */
  lemma PassLeavesLess(gh: GitHub, L: Listing, home: Homes, lim: Limits, saved: Saved)
    requires Serves(gh, L) && WellFormed(L, home) && LimitsOk(lim) && lim.maxPages >= 3 && MidCycle(L, home, saved)
    requires !Pass(gh, lim, saved).status.traversalComplete
    ensures MidCycle(L, home, Pass(gh, lim, saved).saved)
    ensures var c, d := saved.cursor, Pass(gh, lim, saved).saved.cursor;
            && RepoIdx(c) <= RepoIdx(d) <= |L.repos|
            && (RepoIdx(c) == RepoIdx(d) ==>
                  && 0 <= RunsLeft(L, d) <= RunsLeft(L, c)
                  && (RunsLeft(L, c) == RunsLeft(L, d) ==> 0 <= JobPagesLeft(L, d) < JobPagesLeft(L, c)))
  {
    ThreePagesAdvance(gh, L, lim, saved);
    PassCovers(gh, L, home, lim, saved);
    hide Pass, Serves, Covered, RunsSound, CursorSound, Page;
    var c, d := saved.cursor, Pass(gh, lim, saved).saved.cursor;
    if RepoIdx(c) == RepoIdx(d) && RunsLeft(L, c) == RunsLeft(L, d) {
      assert SameRepo(c, d);
      if SamePlace(c, d) {
        assert RunAt(L, c) == RunAt(L, d);
        assert RunAt(L, d).Some?;
        JobPagesLeftIsNat(L, home, Pass(gh, lim, saved).saved);
      }
    }
  }

  /** Passes, the k-th with the caps lims(k), until one finishes the cycle. That this
      function is defined is the statement that finitely many passes suffice. */
  ghost function Cycle(gh: GitHub, L: Listing, home: Homes, lims: nat -> Limits, k: nat, saved: Saved): (o: Outcome)
    requires Serves(gh, L) && WellFormed(L, home) && MidCycle(L, home, saved)
    requires forall i :: LimitsOk(lims(i)) && lims(i).maxPages >= 3
    ensures o.status.traversalComplete && MidCycle(L, home, o.saved)
    decreases |L.repos| - RepoIdx(saved.cursor), RunsLeft(L, saved.cursor), JobPagesLeft(L, saved.cursor)
  {
    var o := Pass(gh, lims(k), saved);
    PassCovers(gh, L, home, lims(k), saved);
    if o.status.traversalComplete then o
    else
      PassLeavesLess(gh, L, home, lims(k), saved);
      Cycle(gh, L, home, lims, k + 1, o.saved)
  }

  lemma FreshIsMidCycle(L: Listing, home: Homes)
    ensures MidCycle(L, home, FRESH)
  {
  }

  lemma {:induction false} CycleCovers(gh: GitHub, L: Listing, home: Homes, lims: nat -> Limits, k: nat, saved: Saved)
    requires Serves(gh, L) && WellFormed(L, home) && MidCycle(L, home, saved)
    requires forall i :: LimitsOk(lims(i)) && lims(i).maxPages >= 3
    ensures var o := Cycle(gh, L, home, lims, k, saved);
            o.saved.cursor == INITIAL && AllDone(o.saved.tables, o.status.partial, L)
    ensures var o := Cycle(gh, L, home, lims, k, saved);
            exists last: Saved, lim :: LimitsOk(lim) && o == Pass(gh, lim, last)
    decreases |L.repos| - RepoIdx(saved.cursor), RunsLeft(L, saved.cursor), JobPagesLeft(L, saved.cursor)
  {
    hide Pass, Serves, WellFormed, MidCycle, RunsSound, AllDone;
    PassCovers(gh, L, home, lims(k), saved);
    var o := Pass(gh, lims(k), saved);
    if !o.status.traversalComplete {
      PassLeavesLess(gh, L, home, lims(k), saved);
      CycleCovers(gh, L, home, lims, k + 1, o.saved);
    }
  }

  /** Main result: from any store whose complete marks are justified, at the start of a cycle or in
      the middle of one, the cycle ends, and when it does every listed run with a valid identifier
      has a row for its listed state and every job of it that can be stored is stored, with what it
      says if job identifiers are distinct; every other record left a reason. What is saved then is
      the start of the next cycle. */
  lemma FinishedCycleMissesNothing(
    gh: GitHub, L: Listing, home: Homes, lims: nat -> Limits, from: nat, saved: Saved, i: int, k: int)
    requires Serves(gh, L) && WellFormed(L, home) && MidCycle(L, home, saved)
    requires forall n :: LimitsOk(lims(n)) && lims(n).maxPages >= 3
    requires 0 <= i < |L.repos|
    requires L.repos[i] != "" ==> 0 <= k < |L.runsOf(L.repos[i])|
    ensures var o := Cycle(gh, L, home, lims, from, saved);
            && MidCycle(L, home, o.saved) && o.saved.cursor == INITIAL
            && if L.repos[i] == "" then RepositoryMissingName in o.status.partial
               else RunDone(o.saved.tables, o.status.partial, L, L.repos[i], L.runsOf(L.repos[i])[k])
  {
    CycleCovers(gh, L, home, lims, from, saved);
    var o := Cycle(gh, L, home, lims, from, saved);
    assert RepoDone(o.saved.tables, o.status.partial, L, L.repos[i]);
  }

  /** Main result: when the pass that ends a cycle reports `complete`, every listed
      repository and run is valid and every job of every one of them is stored, if the complete
      marks were justified to begin with. */
  lemma CompleteStatusMeansEverythingStored(
    gh: GitHub, L: Listing, home: Homes, lims: nat -> Limits, from: nat, saved: Saved, i: int, k: int)
    requires Serves(gh, L) && WellFormed(L, home) && MidCycle(L, home, saved)
    requires forall n :: LimitsOk(lims(n)) && lims(n).maxPages >= 3
    requires Cycle(gh, L, home, lims, from, saved).status.complete
    requires 0 <= i < |L.repos|
    ensures L.repos[i] != ""
    ensures 0 <= k < |L.runsOf(L.repos[i])| ==>
              var run := L.runsOf(L.repos[i])[k];
              Positive(run.id).Some?
              && AllStored(Cycle(gh, L, home, lims, from, saved).saved.tables.jobs, L.jobsOf, L.repos[i], run.id.value,
                           L.jobsOf(L.repos[i], RunIdent(run)))
  {
    CycleCovers(gh, L, home, lims, from, saved);
    var o := Cycle(gh, L, home, lims, from, saved);
    var repo := L.repos[i];
    assert RepoDone(o.saved.tables, o.status.partial, L, repo);
    CompleteStatusIsClean(gh, o);
    if 0 <= k < |L.runsOf(repo)| {
      var run := L.runsOf(repo)[k];
      assert RunDone(o.saved.tables, o.status.partial, L, repo, run);
      assert RowSound(o.saved.tables, L.jobsOf, repo, run.id.value);
    }
  }

  lemma CompleteStatusIsClean(gh: GitHub, o: Outcome)
    requires exists last: Saved, lim :: LimitsOk(lim) && o == Pass(gh, lim, last)
    requires o.status.complete
    ensures o.status.partial == {}
    ensures forall key :: key in o.saved.tables.runs ==> o.saved.tables.runs[key].complete
  {
    hide RunLoop;
    var runs := o.saved.tables.runs;
    var open := set key | key in runs && !runs[key].complete;
    assert |open| == 0;
    assert forall key :: key in runs && !runs[key].complete ==> key in open;
  }
}
