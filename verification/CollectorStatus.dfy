/** When a cycle over a fixed listing reports itself complete: exactly when the listing has
    nothing to complain about and every open row it starts with is still to come and carries no
    reason for its present state. Such a reason is never withdrawn. */
module CollectorStatus {
  import opened Common
  import opened JobMetrics
  import opened Collector
  import opened CollectorSoundness
  import opened CollectorCoverage

  /** Every repository has a name, every run an identifier, and every job can be stored as it is. */
  ghost predicate CleanListing(L: Listing) {
    forall repo :: repo in L.repos ==> repo != "" && forall run :: run in L.runsOf(repo) ==> CleanRun(L, repo, run)
  }

  ghost predicate CleanRun(L: Listing, repo: string, run: RunItem) {
    Positive(run.id).Some? && forall j :: j in L.jobsOf(repo, RunIdent(run)) ==> Clean(j)
  }

  type Key = (string, int)

  /** The run of a row is listed at the cursor or after it. */
  ghost predicate ToCome(L: Listing, c: Cursor, key: Key) {
    exists i, k | RepoIdx(c) <= i < |L.repos| && 0 <= k < |L.runsOf(key.0)| ::
      0 <= i && L.repos[i] == key.0 && (i == RepoIdx(c) ==> RunIdx(c) <= k) && L.runsOf(key.0)[k].id == Some(key.1)
  }

  /** The row carries a reason for the state in which its run is listed. */
  ghost predicate Sticks(L: Listing, key: Key, row: RunRow) {
    row.reasons != {}
    && exists run :: run in L.runsOf(key.0) && run.id == Some(key.1) && RowIdent(key.1, row) == RunIdent(run)
  }

  ghost predicate Settles(L: Listing, c: Cursor, key: Key, row: RunRow) {
    row.complete || (ToCome(L, c, key) && !Sticks(L, key, row))
  }

  /** Every row is complete or will be read to its end without an old reason. */
  ghost predicate AllSettle(L: Listing, runs: RunTable, c: Cursor) {
    forall key | key in runs :: Settles(L, c, key, runs[key])
  }

  predicate AllComplete(runs: RunTable) {
    forall key | key in runs :: runs[key].complete
  }

  /** What an iteration over a clean listing keeps. */
  ghost predicate Keeps(L: Listing, s: Loop, n: Next) {
    && n.s.skipped == s.skipped
    && (n.Again? || n.s.complete ==> n.s.partial == s.partial && n.s.caps == s.caps)
    && (AllSettle(L, s.tables.runs, s.cursor)
        <==> if n.Stop? && n.s.complete then AllComplete(n.s.tables.runs) else AllSettle(L, n.s.tables.runs, n.s.cursor))
  }

  // ---------------------------------------------------------------- positions

  lemma SamePlaceToCome(L: Listing, c: Cursor, d: Cursor, runs: RunTable)
    requires SamePlace(c, d)
    ensures AllSettle(L, runs, c) <==> AllSettle(L, runs, d)
  {
    forall key ensures ToCome(L, c, key) <==> ToCome(L, d, key) {
    }
    hide ToCome, Sticks;
  }

  /** Past a run, exactly that run is no longer to come. */
  lemma OneRunLess(L: Listing, c: Cursor, d: Cursor, repo: string, run: RunItem, key: Key)
    requires 0 <= RepoIdx(c) < |L.repos| && L.repos[RepoIdx(c)] == repo
    requires 0 <= RunIdx(c) < |L.runsOf(repo)| && L.runsOf(repo)[RunIdx(c)] == run
    requires RepoIdx(d) == RepoIdx(c) && RunIdx(d) == RunIdx(c) + 1
    ensures ToCome(L, d, key) ==> ToCome(L, c, key)
    ensures ToCome(L, c, key) && !(key.0 == repo && run.id == Some(key.1)) ==> ToCome(L, d, key)
    ensures run.id.Some? ==> ToCome(L, c, (repo, run.id.value))
  {
  }

  lemma OneRepoLess(L: Listing, c: Cursor, d: Cursor, repo: string, key: Key)
    requires 0 <= RepoIdx(c) < |L.repos| && L.repos[RepoIdx(c)] == repo && RunIdx(c) >= |L.runsOf(repo)|
    requires RepoIdx(d) == RepoIdx(c) + 1 && RunIdx(d) == 0
    ensures ToCome(L, c, key) <==> ToCome(L, d, key)
  {
  }

  lemma NothingToCome(L: Listing, c: Cursor, runs: RunTable)
    requires RepoIdx(c) >= |L.repos|
    ensures AllSettle(L, runs, c) <==> AllComplete(runs)
  {
    forall key ensures !ToCome(L, c, key) {
    }
    hide ToCome, Sticks;
  }

  // ---------------------------------------------------------------- handling one run

  /** When a run is handled, the rows of the others settle as before. */
  lemma OtherRowsSettle(L: Listing, runs: RunTable, c: Cursor, d: Cursor, key: Key, row: RunRow)
    requires forall other: Key :: other != key ==> (ToCome(L, c, other) <==> ToCome(L, d, other))
    requires if key in runs then Settles(L, c, key, runs[key]) <==> Settles(L, d, key, row) else Settles(L, d, key, row)
    ensures AllSettle(L, runs, c) <==> AllSettle(L, runs[key := row], d)
  {
    hide ToCome, Sticks;
    var after := runs[key := row];
    forall other | other in runs && other != key
      ensures other in after && (Settles(L, c, other, runs[other]) <==> Settles(L, d, other, after[other]))
    {
    }
    hide Settles;
    if AllSettle(L, runs, c) {
      forall other | other in after ensures Settles(L, d, other, after[other]) {
        assert other in runs ==> Settles(L, c, other, runs[other]);
      }
    }
    if AllSettle(L, after, d) {
      forall other | other in runs ensures Settles(L, c, other, runs[other]) {
        assert other in after && Settles(L, d, other, after[other]);
      }
    }
  }

  lemma SameState(row: RunRow, run: RunItem)
    requires RowOk(row) && Positive(run.id).Some? && run.updatedAt != Some("")
    ensures RowIdent(run.id.value, row) == RunIdent(run)
            <==> row.attempt == Positive(run.attempt) && row.updatedAt == run.updatedAt
  {
  }

  lemma SticksIff(L: Listing, home: Homes, repo: string, run: RunItem, row: RunRow)
    requires WellFormed(L, home) && run in L.runsOf(repo) && Positive(run.id).Some?
    ensures Sticks(L, (repo, run.id.value), row) <==> row.reasons != {} && RowIdent(run.id.value, row) == RunIdent(run)
  {
  }

  /** The row a read leaves settles exactly as the row before it did. */
  lemma ReadSettles(L: Listing, home: Homes, tables: Tables, c: Cursor, d: Cursor, repo: string, run: RunItem, done: bool)
    requires WellFormed(L, home) && RunsSound(tables, L.jobsOf) && run in L.runsOf(repo) && Positive(run.id).Some?
    requires ToCome(L, c, (repo, run.id.value)) && (!done ==> ToCome(L, d, (repo, run.id.value)))
    ensures var key := (repo, run.id.value);
            var prior := PriorReasons(tables.runs, repo, run);
            var row := RunRow(Positive(run.attempt), run.updatedAt, prior, done && prior == {});
            if key in tables.runs then Settles(L, c, key, tables.runs[key]) <==> Settles(L, d, key, row)
            else Settles(L, d, key, row)
  {
    var key := (repo, run.id.value);
    var prior := PriorReasons(tables.runs, repo, run);
    var row := RunRow(Positive(run.attempt), run.updatedAt, prior, done && prior == {});
    assert Belongs(home, repo, run);
    SticksIff(L, home, repo, run, row);
    if key in tables.runs {
      assert RowSound(tables, L.jobsOf, repo, run.id.value);
      SticksIff(L, home, repo, run, tables.runs[key]);
      SameState(tables.runs[key], run);
    }
    hide WellFormed, ToCome, Sticks, RunsSound, AllStored;
  }

  lemma FetchedAreClean(
    gh: GitHub, L: Listing, t: nat, repo: string, run: RunItem, page: int, pages: int, budget: int)
    requires Serves(gh, L) && page >= 1 && CleanRun(L, repo, run)
    ensures var f := FetchJobs(gh, t, repo, run, page, pages, budget);
            f.Fetched? ==> (forall j :: j in f.jobs ==> Clean(j)) && JobReasons(f.jobs) == {}
  {
    hide Serves, Clean, JobReasons, CleanRun;
    FetchedJobsAreClean(gh, L, t, repo, run, page, pages, budget);
    var f := FetchJobs(gh, t, repo, run, page, pages, budget);
    if f.Fetched? {
      NoReasonsMeansClean(f.jobs);
    }
  }

  lemma {:induction false} FetchedJobsAreClean(
    gh: GitHub, L: Listing, t: nat, repo: string, run: RunItem, page: int, pages: int, budget: int)
    requires Serves(gh, L) && page >= 1 && CleanRun(L, repo, run)
    ensures var f := FetchJobs(gh, t, repo, run, page, pages, budget);
            f.Fetched? ==> forall j :: j in f.jobs ==> Clean(j)
    decreases budget - pages
  {
    hide Clean;
    if pages < budget {
      assert gh(t, GetJobs(repo, run, page)) == JobsPage(Page(L.jobsOf(repo, RunIdent(run)), page));
      PageIsClean(L, repo, run, page);
      FetchedJobsAreClean(gh, L, t + 1, repo, run, page + 1, pages + 1, budget);
      hide Page, Serves, CleanRun;
    }
  }

  lemma PageIsClean(L: Listing, repo: string, run: RunItem, page: int)
    requires CleanRun(L, repo, run) && page >= 1
    ensures forall j :: j in Page(L.jobsOf(repo, RunIdent(run)), page) ==> Clean(j)
  {
    hide Clean;
  }

  lemma ReadRow(tables: Tables, repo: string, run: RunItem, f: Fetched)
    requires Positive(run.id).Some? && f.Fetched? && JobReasons(f.jobs) == {}
    requires f.problem == if f.done then None else Some(PageCapReason)
    ensures var prior := PriorReasons(tables.runs, repo, run);
            StoreFetched(tables, repo, run, f).runs
            == tables.runs[(repo, run.id.value) := RunRow(Positive(run.attempt), run.updatedAt, prior, f.done && prior == {})]
  {
    hide JobReasons, StorableJobs, Upsert, PriorReasons;
    var prior := PriorReasons(tables.runs, repo, run);
    assert {} + {} + prior == prior;
  }

  /** Where the run under the cursor is listed. */
  lemma Standing(L: Listing, c: Cursor, repo: string, runs: seq<RunItem>)
    requires InRange(L, c) && RepoAt(L, c) == Some(repo) && repo != "" && runs == Page(L.runsOf(repo), c.runPage)
    ensures 0 <= RepoIdx(c) < |L.repos| && L.repos[RepoIdx(c)] == repo && 0 <= RunIdx(c)
    ensures c.runOffset < |runs| ==>
              RunIdx(c) < |L.runsOf(repo)| && L.runsOf(repo)[RunIdx(c)] == runs[c.runOffset]
    ensures c.runOffset >= |runs| ==> RunIdx(c) >= |L.runsOf(repo)| && |runs| < PAGE_SIZE
  {
    PageIndex(L.repos, c.repoPage, c.repoOffset);
    PageIndex(L.runsOf(repo), c.runPage, c.runOffset);
    hide Page;
  }

  lemma PastRunStands(L: Listing, c: Cursor, c1: Cursor, runs: seq<RunItem>)
    requires InRange(L, c) && SamePlace(c, c1) && c.runOffset < |runs| <= PAGE_SIZE
    ensures RepoIdx(AdvanceRun(c1, |runs|).0) == RepoIdx(c) && RunIdx(AdvanceRun(c1, |runs|).0) == RunIdx(c) + 1
  {
  }

  lemma HandledKeeps(L: Listing, runs: RunTable, c: Cursor, d: Cursor, repo: string, run: RunItem, row: RunRow)
    requires 0 <= RepoIdx(c) < |L.repos| && L.repos[RepoIdx(c)] == repo && run.id.Some?
    requires 0 <= RunIdx(c) < |L.runsOf(repo)| && L.runsOf(repo)[RunIdx(c)] == run
    requires SamePlace(c, d) || (RepoIdx(d) == RepoIdx(c) && RunIdx(d) == RunIdx(c) + 1)
    requires var key := (repo, run.id.value);
             if key in runs then Settles(L, c, key, runs[key]) <==> Settles(L, d, key, row) else Settles(L, d, key, row)
    ensures AllSettle(L, runs, c) <==> AllSettle(L, runs[(repo, run.id.value) := row], d)
  {
    hide Settles, AllSettle;
    var key := (repo, run.id.value);
    forall other: Key | other != key ensures ToCome(L, c, other) <==> ToCome(L, d, other) {
      if !SamePlace(c, d) {
        OneRunLess(L, c, d, repo, run, other);
      }
    }
    hide ToCome;
    OtherRowsSettle(L, runs, c, d, key, row);
  }

  lemma CollectRunKeeps(gh: GitHub, L: Listing, home: Homes, lim: Limits, s: Loop, repo: string, run: RunItem)
    requires Serves(gh, L) && WellFormed(L, home) && Consistent(L, s) && RunsSound(s.tables, L.jobsOf)
    requires !s.complete && s.runsLoaded && s.runsRepo == Some(repo) && InRange(L, s.cursor)
    requires RepoAt(L, s.cursor) == Some(repo) && repo != "" && run in L.runsOf(repo) && CleanRun(L, repo, run)
    requires s.cursor.runOffset < |s.runs| && run == s.runs[s.cursor.runOffset] && Positive(run.id).Some?
    ensures Keeps(L, s, CollectRun(gh, lim, s, repo, run))
  {
    hide Serves, FetchJobs, JobReasons, StorableJobs, StoreFetched, CleanRun, RepoAt, RunsSound, WellFormed, AllSettle,
      Settles, ToCome, PriorReasons;
    Standing(L, s.cursor, repo, s.runs);
    assert |s.runs| <= PAGE_SIZE;
    hide Page;
    var (c, start) := ResumeJobPage(s.cursor, run);
    PastRunStands(L, s.cursor, c, s.runs);
    FetchServed(gh, L, s.t, repo, run, start, s.pages, lim.maxPages);
    FetchedAreClean(gh, L, s.t, repo, run, start, s.pages, lim.maxPages);
    var f := FetchJobs(gh, s.t, repo, run, start, s.pages, lim.maxPages);
    ReadRow(s.tables, repo, run, f);
    var d := CollectRun(gh, lim, s, repo, run).s.cursor;
    assert if f.done then d == AdvanceRun(c, |s.runs|).0 else SamePlace(s.cursor, d);
    hide AdvanceRun, InRange;
    RunToCome(L, s.cursor, repo, run);
    if !f.done {
      RunToCome(L, d, repo, run);
    }
    ReadSettles(L, home, s.tables, s.cursor, d, repo, run, f.done);
    var prior := PriorReasons(s.tables.runs, repo, run);
    HandledKeeps(L, s.tables.runs, s.cursor, d, repo, run,
                 RunRow(Positive(run.attempt), run.updatedAt, prior, f.done && prior == {}));
  }

  lemma RunToCome(L: Listing, c: Cursor, repo: string, run: RunItem)
    requires 0 <= RepoIdx(c) < |L.repos| && L.repos[RepoIdx(c)] == repo && run.id.Some?
    requires 0 <= RunIdx(c) < |L.runsOf(repo)| && L.runsOf(repo)[RunIdx(c)] == run
    ensures ToCome(L, c, (repo, run.id.value))
  {
  }

  // ---------------------------------------------------------------- iterations

  lemma UnchangedKeeps(L: Listing, home: Homes, runs: RunTable, c: Cursor, runsPage: seq<RunItem>, repo: string, run: RunItem)
    requires InRange(L, c) && RepoAt(L, c) == Some(repo) && repo != "" && runsPage == Page(L.runsOf(repo), c.runPage)
    requires c.runOffset < |runsPage| && run == runsPage[c.runOffset] && Positive(run.id).Some? && Unchanged(runs, repo, run)
    ensures AllSettle(L, runs, c) <==> AllSettle(L, runs, AdvanceRun(c, |runsPage|).0)
  {
    hide AllSettle, ToCome, Sticks;
    Standing(L, c, repo, runsPage);
    PastRunStands(L, c, c, runsPage);
    var key := (repo, run.id.value);
    assert runs[key := runs[key]] == runs;
    hide Page, RepoAt, InRange, AdvanceRun;
    HandledKeeps(L, runs, c, AdvanceRun(c, |runsPage|).0, repo, run, runs[key]);
  }

  lemma NextRepoKeeps(L: Listing, runs: RunTable, c: Cursor, repo: string, runsPage: seq<RunItem>, repos: seq<string>)
    requires InRange(L, c) && RepoAt(L, c) == Some(repo) && repo != "" && runsPage == Page(L.runsOf(repo), c.runPage)
    requires repos == RepoPageAt(L, c) && c.runOffset >= |runsPage|
    ensures AllSettle(L, runs, c) <==> AllSettle(L, runs, NextRepo(c, |repos|).0)
  {
    Standing(L, c, repo, runsPage);
    PageIndex(L.repos, c.repoPage, c.repoOffset);
    hide Page, Sticks;
    var d := NextRepo(c, |repos|).0;
    assert RepoIdx(d) == RepoIdx(c) + 1 && RunIdx(d) == 0;
    forall key ensures ToCome(L, c, key) <==> ToCome(L, d, key) {
      OneRepoLess(L, c, d, repo, key);
    }
    hide ToCome, NextRepo, InRange, RepoAt;
  }

  lemma AtRunsKeeps(gh: GitHub, L: Listing, home: Homes, lim: Limits, s: Loop, repo: string)
    requires Serves(gh, L) && WellFormed(L, home) && CleanListing(L) && Consistent(L, s) && RunsSound(s.tables, L.jobsOf)
    requires !s.complete && s.reposLoaded && s.runsLoaded && s.runsRepo == Some(repo) && InRange(L, s.cursor)
    requires RepoAt(L, s.cursor) == Some(repo) && repo != "" && repo in L.repos
    ensures Keeps(L, s, AtRuns(gh, lim, s, repo))
  {
    hide CollectRun, Serves, Unchanged, CleanRun, WellFormed, RunsSound, AllSettle, AllComplete, NextRepo, AdvanceRun;
    Standing(L, s.cursor, repo, s.runs);
    if s.cursor.runOffset >= |s.runs| {
      hide Page;
      NextRepoKeeps(L, s.tables.runs, s.cursor, repo, s.runs, s.repos);
    } else {
      var run := s.runs[s.cursor.runOffset];
      assert run in L.runsOf(repo);
      hide Page;
      assert CleanRun(L, repo, run);
      hide CleanListing;
      IsValid(L, repo, run);
      if s.runCount < lim.maxRuns {
        if Unchanged(s.tables.runs, repo, run) {
          UnchangedKeeps(L, home, s.tables.runs, s.cursor, s.runs, repo, run);
        } else if s.pages < lim.maxPages {
          CollectRunKeeps(gh, L, home, lim, s, repo, run);
        }
      }
    }
  }

  lemma IsValid(L: Listing, repo: string, run: RunItem)
    requires CleanRun(L, repo, run)
    ensures Positive(run.id).Some?
  {
  }

  lemma PageHolds<T>(xs: seq<T>, page: int, offset: int)
    requires page >= 1 && 0 <= offset < |Page(xs, page)|
    ensures Page(xs, page)[offset] in xs
  {
  }

  lemma AtReposKeeps(gh: GitHub, L: Listing, home: Homes, lim: Limits, s: Loop)
    requires Serves(gh, L) && WellFormed(L, home) && CleanListing(L) && Consistent(L, s) && RunsSound(s.tables, L.jobsOf)
    requires !s.complete && s.reposLoaded && InBounds(lim, s) && InRange(L, s.cursor)
    ensures Keeps(L, s, AtRepos(gh, lim, s))
  {
    hide AtRuns, WellFormed, RunsSound, AllSettle, AllComplete, CleanListing;
    if s.cursor.repoOffset >= |s.repos| {
      EndKeeps(L, s.tables.runs, s.cursor, s.repos);
    } else if s.repoCount < lim.maxRepos {
      var repo := s.repos[s.cursor.repoOffset];
      PageHolds(L.repos, s.cursor.repoPage, s.cursor.repoOffset);
      hide Page;
      NameIsGiven(L, repo);
      if s.runsLoaded && s.runsRepo == Some(repo) {
        AtRunsKeeps(gh, L, home, lim, s, repo);
      } else if s.pages < lim.maxPages {
        var r := gh(s.t, GetRuns(repo, s.cursor.runPage));
        assert r == RunsPage(Page(L.runsOf(repo), s.cursor.runPage));
        AtRunsKeeps(gh, L, home, lim, s.(t := s.t + 1, pages := s.pages + 1, runs := r.runs, runsRepo := Some(repo),
                                         runsLoaded := true), repo);
      }
    }
  }

  lemma EndKeeps(L: Listing, runs: RunTable, c: Cursor, repos: seq<string>)
    requires InRange(L, c) && repos == RepoPageAt(L, c) && c.repoOffset >= |repos|
    ensures |repos| < PAGE_SIZE
    ensures AllSettle(L, runs, c) <==> AllComplete(runs)
  {
    PageIndex(L.repos, c.repoPage, c.repoOffset);
    hide Page, AllSettle, AllComplete;
    NothingToCome(L, c, runs);
  }

  lemma NameIsGiven(L: Listing, repo: string)
    requires CleanListing(L) && repo in L.repos
    ensures repo != ""
  {
  }

  lemma IterateKeeps(gh: GitHub, L: Listing, home: Homes, lim: Limits, s: Loop)
    requires Serves(gh, L) && WellFormed(L, home) && CleanListing(L) && Consistent(L, s) && RunsSound(s.tables, L.jobsOf)
    requires !s.complete && InBounds(lim, s) && s.pages < lim.maxPages && InRange(L, s.cursor)
    ensures Keeps(L, s, Iterate(gh, lim, s))
  {
    hide AtRepos, Page, CleanListing, WellFormed, RunsSound, AllSettle, AllComplete, InRange;
    if s.reposLoaded {
      AtReposKeeps(gh, L, home, lim, s);
    } else {
      var r := gh(s.t, GetRepos(s.cursor.repoPage));
      assert r == ReposPage(Page(L.repos, s.cursor.repoPage));
      AtReposKeeps(gh, L, home, lim, s.(t := s.t + 1, pages := s.pages + 1, repos := r.repos, reposLoaded := true));
    }
  }

  lemma {:induction false} RunLoopKeeps(gh: GitHub, L: Listing, home: Homes, lim: Limits, s: Loop)
    requires Serves(gh, L) && WellFormed(L, home) && CleanListing(L) && Consistent(L, s) && LoopSound(L.jobsOf, home, s)
    requires LimitsOk(lim) && !s.complete && InBounds(lim, s)
    requires InRange(L, s.cursor) && Covered(s.tables, s.skipped, L, s.cursor)
    ensures Keeps(L, s, Stop(RunLoop(gh, lim, s)))
    decreases Fuel(lim, s)
  {
    ServesHonestly(gh, L, home);
    LoopIsSound(L, home, s);
    hide Iterate, Serves, WellFormed, Consistent, LoopSound, InRange, Covered, AllDone, HonestJobs, HonestRuns, NotBefore, After,
      CleanListing, RunsSound, AllSettle, AllComplete;
    if s.pages < lim.maxPages {
      IterateBounded(gh, lim, s);
      IterateSound(gh, lim, s, L.jobsOf, home);
      IterateMoves(gh, L, lim, s);
      IterateCovers(gh, L, home, lim, s);
      IterateKeeps(gh, L, home, lim, s);
      if Iterate(gh, lim, s).Again? {
        RunLoopKeeps(gh, L, home, lim, Iterate(gh, lim, s).s);
      }
    }
  }

  lemma LoopIsSound(L: Listing, home: Homes, s: Loop)
    requires LoopSound(L.jobsOf, home, s)
    ensures RunsSound(s.tables, L.jobsOf)
  {
  }

  // ---------------------------------------------------------------- passes and cycles

  /** What must hold of a store for the cycle it is in to end complete. */
  ghost predicate CanComplete(L: Listing, saved: Saved) {
    saved.cursor.skipped == {} && AllSettle(L, saved.tables.runs, saved.cursor)
  }

  lemma PassKeepsCanComplete(gh: GitHub, L: Listing, home: Homes, lim: Limits, saved: Saved)
    requires Serves(gh, L) && WellFormed(L, home) && CleanListing(L) && LimitsOk(lim) && MidCycle(L, home, saved)
    ensures var o := Pass(gh, lim, saved);
            if o.status.traversalComplete then o.status.complete <==> CanComplete(L, saved)
            else CanComplete(L, o.saved) <==> CanComplete(L, saved)
  {
    hide RunLoop, Serves, WellFormed, CleanListing, Covered, RunsSound, CursorSound, AllSettle, InRange;
    var s := Start(saved);
    RunLoopKeeps(gh, L, home, lim, s);
    var r := RunLoop(gh, lim, s);
    CountsOpenRows(r.tables.runs);
    if !r.complete {
      SamePlaceToCome(L, r.cursor, r.cursor.(skipped := r.skipped), r.tables.runs);
    }
    hide AllComplete;
  }

  lemma CountsOpenRows(runs: RunTable)
    ensures IncompleteRuns(runs) == 0 <==> AllComplete(runs)
  {
    var open := set key | key in runs && !runs[key].complete;
    if |open| == 0 {
      assert forall key :: key in runs && !runs[key].complete ==> key in open;
    } else {
      assert AllComplete(runs) ==> open == {};
    }
  }

  lemma {:induction false} CycleKeepsCanComplete(gh: GitHub, L: Listing, home: Homes, lims: nat -> Limits, k: nat, saved: Saved)
    requires Serves(gh, L) && WellFormed(L, home) && MidCycle(L, home, saved) && CleanListing(L)
    requires forall i :: LimitsOk(lims(i)) && lims(i).maxPages >= 3
    ensures Cycle(gh, L, home, lims, k, saved).status.complete <==> CanComplete(L, saved)
    decreases |L.repos| - RepoIdx(saved.cursor), RunsLeft(L, saved.cursor), JobPagesLeft(L, saved.cursor)
  {
    hide Pass, Serves, WellFormed, MidCycle, CleanListing, CanComplete;
    PassKeepsCanComplete(gh, L, home, lims(k), saved);
    var o := Pass(gh, lims(k), saved);
    if !o.status.traversalComplete {
      PassLeavesLess(gh, L, home, lims(k), saved);
      CycleKeepsCanComplete(gh, L, home, lims, k + 1, o.saved);
    }
  }

  /** Main result: from any store whose complete marks are justified, at the start of a cycle or in
      the middle of one, the cycle ends with a complete status if and only if the listing is clean, nothing was skipped so far, and
      every row that is not complete belongs to a run still to come and carries no reason for
      the state in which that run is listed. */
  lemma CompleteStatusIff(gh: GitHub, L: Listing, home: Homes, lims: nat -> Limits, from: nat, saved: Saved)
    requires Serves(gh, L) && WellFormed(L, home) && MidCycle(L, home, saved)
    requires forall n :: LimitsOk(lims(n)) && lims(n).maxPages >= 3
    ensures Cycle(gh, L, home, lims, from, saved).status.complete
            <==> CleanListing(L) && saved.cursor.skipped == {} && AllSettle(L, saved.tables.runs, saved.cursor)
  {
    hide Serves, WellFormed, MidCycle, Cycle, AllStored, AllSettle;
    if Cycle(gh, L, home, lims, from, saved).status.complete {
      forall repo | repo in L.repos
        ensures repo != "" && forall run :: run in L.runsOf(repo) ==> CleanRun(L, repo, run)
      {
        CompleteRepository(gh, L, home, lims, from, saved, repo);
      }
    }
    if CleanListing(L) {
      CycleKeepsCanComplete(gh, L, home, lims, from, saved);
    }
  }

  lemma CompleteRepository(
    gh: GitHub, L: Listing, home: Homes, lims: nat -> Limits, from: nat, saved: Saved, repo: string)
    requires Serves(gh, L) && WellFormed(L, home) && MidCycle(L, home, saved)
    requires forall n :: LimitsOk(lims(n)) && lims(n).maxPages >= 3
    requires Cycle(gh, L, home, lims, from, saved).status.complete && repo in L.repos
    ensures repo != "" && forall run :: run in L.runsOf(repo) ==> CleanRun(L, repo, run)
  {
    hide Serves, WellFormed, MidCycle, Cycle, Clean;
    var i :| 0 <= i < |L.repos| && L.repos[i] == repo;
    CompleteStatusMeansEverythingStored(gh, L, home, lims, from, saved, i, -1);
    forall run | run in L.runsOf(repo) ensures CleanRun(L, repo, run) {
      var k :| 0 <= k < |L.runsOf(repo)| && L.runsOf(repo)[k] == run;
      CompleteStatusMeansEverythingStored(gh, L, home, lims, from, saved, i, k);
    }
  }

  /** From the empty store only the listing counts. */
  lemma FirstCompleteStatusIff(gh: GitHub, L: Listing, home: Homes, lims: nat -> Limits)
    requires Serves(gh, L) && WellFormed(L, home)
    requires forall n :: LimitsOk(lims(n)) && lims(n).maxPages >= 3
    ensures MidCycle(L, home, FRESH)
    ensures Cycle(gh, L, home, lims, 0, FRESH).status.complete <==> CleanListing(L)
  {
    hide Serves, WellFormed, Cycle, CleanListing;
    FreshIsMidCycle(L, home);
    CompleteStatusIff(gh, L, home, lims, 0, FRESH);
  }
}
