/** A reason recorded for a run state is never withdrawn while the run is listed in that state, so
    one bad answer keeps every later pass from reporting complete. */
module CollectorReasons {
  import opened Common
  import opened JobMetrics
  import opened Collector
  import opened CollectorSoundness
  import opened CollectorCoverage
  import opened CollectorStatus

  /** Whenever the run is listed, it is listed in this state. */
  ghost predicate ListedAs(gh: GitHub, key: Key, attempt: Option<int>, updatedAt: Option<string>) {
    forall t: nat, page, run |
      page >= 1 && gh(t, GetRuns(key.0, page)).RunsPage? && run in gh(t, GetRuns(key.0, page)).runs ::
      InState(run, key, attempt, updatedAt)
  }

  predicate InState(run: RunItem, key: Key, attempt: Option<int>, updatedAt: Option<string>) {
    run.id == Some(key.1) ==> Positive(run.attempt) == attempt && run.updatedAt == updatedAt
  }

  /** An open row with a reason for this state of its run. */
  predicate Stuck(runs: RunTable, key: Key, attempt: Option<int>, updatedAt: Option<string>) {
    && key in runs && !runs[key].complete && runs[key].reasons != {}
    && runs[key].attempt == attempt && runs[key].updatedAt == updatedAt
  }

  ghost predicate LoopStuck(s: Loop, key: Key, attempt: Option<int>, updatedAt: Option<string>) {
    && Stuck(s.tables.runs, key, attempt, updatedAt)
    && (s.runsLoaded && s.runsRepo == Some(key.0) ==> forall run :: run in s.runs ==> InState(run, key, attempt, updatedAt))
  }

  lemma StoreKeepsStuck(
    tables: Tables, repo: string, run: RunItem, f: Fetched, key: Key, attempt: Option<int>, updatedAt: Option<string>)
    requires Positive(run.id).Some? && Stuck(tables.runs, key, attempt, updatedAt)
    requires repo == key.0 ==> InState(run, key, attempt, updatedAt)
    ensures Stuck(StoreFetched(tables, repo, run, f).runs, key, attempt, updatedAt)
  {
    hide JobReasons, StorableJobs, Upsert;
  }

  lemma CollectRunStuck(
    gh: GitHub, lim: Limits, s: Loop, repo: string, run: RunItem, key: Key, attempt: Option<int>, updatedAt: Option<string>)
    requires LoopStuck(s, key, attempt, updatedAt) && Positive(run.id).Some?
    requires repo == key.0 ==> InState(run, key, attempt, updatedAt)
    ensures LoopStuck(CollectRun(gh, lim, s, repo, run).s, key, attempt, updatedAt)
  {
    hide Stuck, InState, StoreFetched, FetchJobs, JobReasons, StorableJobs, AdvanceRun;
    var (c, start) := ResumeJobPage(s.cursor, run);
    var f := FetchJobs(gh, s.t, repo, run, start, s.pages, lim.maxPages);
    StoreKeepsStuck(s.tables, repo, run, f, key, attempt, updatedAt);
  }

  lemma AtRunsStuck(gh: GitHub, lim: Limits, s: Loop, repo: string, key: Key, attempt: Option<int>, updatedAt: Option<string>)
    requires LoopStuck(s, key, attempt, updatedAt) && s.cursor.runOffset >= 0 && s.runsLoaded && s.runsRepo == Some(repo)
    ensures LoopStuck(AtRuns(gh, lim, s, repo).s, key, attempt, updatedAt)
  {
    hide Stuck, InState, CollectRun, Unchanged, AdvanceRun, NextRepo;
    if s.cursor.runOffset < |s.runs| {
      var run := s.runs[s.cursor.runOffset];
      if Positive(run.id).Some? {
        CollectRunStuck(gh, lim, s, repo, run, key, attempt, updatedAt);
      }
    }
  }

  lemma AtReposStuck(gh: GitHub, lim: Limits, s: Loop, key: Key, attempt: Option<int>, updatedAt: Option<string>)
    requires ListedAs(gh, key, attempt, updatedAt) && LoopStuck(s, key, attempt, updatedAt)
    requires s.cursor.repoOffset >= 0 && s.cursor.runOffset >= 0 && s.cursor.runPage >= 1
    ensures LoopStuck(AtRepos(gh, lim, s).s, key, attempt, updatedAt)
  {
    hide AtRuns, Stuck, InState, NextRepo;
    if s.cursor.repoOffset < |s.repos| && s.repos[s.cursor.repoOffset] != "" {
      var repo := s.repos[s.cursor.repoOffset];
      if s.runsLoaded && s.runsRepo == Some(repo) {
        AtRunsStuck(gh, lim, s, repo, key, attempt, updatedAt);
      } else {
        var r := gh(s.t, GetRuns(repo, s.cursor.runPage));
        if r.RunsPage? {
          AtRunsStuck(gh, lim, s.(t := s.t + 1, pages := s.pages + 1, runs := r.runs, runsRepo := Some(repo),
                                  runsLoaded := true), repo, key, attempt, updatedAt);
        }
      }
    }
  }

  lemma IterateStuck(gh: GitHub, lim: Limits, s: Loop, key: Key, attempt: Option<int>, updatedAt: Option<string>)
    requires ListedAs(gh, key, attempt, updatedAt) && LoopStuck(s, key, attempt, updatedAt) && InBounds(lim, s)
    ensures LoopStuck(Iterate(gh, lim, s).s, key, attempt, updatedAt)
  {
    hide AtRepos, Stuck, InState;
    if s.reposLoaded {
      AtReposStuck(gh, lim, s, key, attempt, updatedAt);
    } else {
      var r := gh(s.t, GetRepos(s.cursor.repoPage));
      if r.ReposPage? {
        AtReposStuck(gh, lim, s.(t := s.t + 1, pages := s.pages + 1, repos := r.repos, reposLoaded := true),
                     key, attempt, updatedAt);
      }
    }
  }

  lemma {:induction false} RunLoopStuck(gh: GitHub, lim: Limits, s: Loop, key: Key, attempt: Option<int>, updatedAt: Option<string>)
    requires ListedAs(gh, key, attempt, updatedAt) && LoopStuck(s, key, attempt, updatedAt)
    requires LimitsOk(lim) && InBounds(lim, s)
    ensures Stuck(RunLoop(gh, lim, s).tables.runs, key, attempt, updatedAt)
    decreases Fuel(lim, s)
  {
    hide Iterate, Stuck, InState, ListedAs;
    if s.pages < lim.maxPages {
      IterateBounded(gh, lim, s);
      IterateStuck(gh, lim, s, key, attempt, updatedAt);
      if Iterate(gh, lim, s).Again? {
        RunLoopStuck(gh, lim, Iterate(gh, lim, s).s, key, attempt, updatedAt);
      }
    }
  }

  lemma PassStuck(gh: GitHub, lim: Limits, saved: Saved, key: Key, attempt: Option<int>, updatedAt: Option<string>)
    requires ListedAs(gh, key, attempt, updatedAt) && LimitsOk(lim) && Stuck(saved.tables.runs, key, attempt, updatedAt)
    ensures Stuck(Pass(gh, lim, saved).saved.tables.runs, key, attempt, updatedAt) && !Pass(gh, lim, saved).status.complete
  {
    hide RunLoop, ListedAs;
    RunLoopStuck(gh, lim, Start(saved), key, attempt, updatedAt);
    CountsOpenRows(RunLoop(gh, lim, Start(saved)).tables.runs);
  }

  /** Main result: whatever else GitHub answers, while a run is listed in the state its row has a
      reason for, the row stays open and no pass with any caps ever reports complete. */
  lemma {:induction false} ReasonsAreNeverWithdrawn(
    gh: GitHub, lims: seq<Limits>, lim: Limits, saved: Saved, key: Key, attempt: Option<int>, updatedAt: Option<string>)
    requires ListedAs(gh, key, attempt, updatedAt) && Stuck(saved.tables.runs, key, attempt, updatedAt)
    requires LimitsOk(lim) && forall l :: l in lims ==> LimitsOk(l)
    ensures Stuck(PassMany(gh, lims, saved).tables.runs, key, attempt, updatedAt)
    ensures !Pass(gh, lim, PassMany(gh, lims, saved)).status.complete
    decreases |lims|
  {
    hide Pass, ListedAs, Stuck;
    if lims != [] {
      ReasonsAreNeverWithdrawn(gh, lims[..|lims| - 1], lims[|lims| - 1], saved, key, attempt, updatedAt);
      PassStuck(gh, lims[|lims| - 1], PassMany(gh, lims[..|lims| - 1], saved), key, attempt, updatedAt);
    }
    PassStuck(gh, lim, PassMany(gh, lims, saved), key, attempt, updatedAt);
  }

  /** A server with one run and no jobs whose third answer is not a page. */
  function HiccupGitHub(): GitHub {
    (t: nat, r: Request) =>
      match r
      case GetRepos(page) => ReposPage(if page == 1 then ["r"] else [])
      case GetRuns(repo, page) => RunsPage(if page == 1 then OneRun().runsOf(repo) else [])
      case GetJobs(repo, run, page) => if t == 2 then Malformed else JobsPage([])
  }

  /** One bad answer is enough: the listing is clean and every later request is answered, yet no
      later pass reports complete. */
  lemma OneBadPageIsForever(lims: seq<Limits>, lim: Limits)
    requires LimitsOk(lim) && forall l :: l in lims ==> LimitsOk(l)
    ensures CleanListing(OneRun())
    ensures var saved := Pass(HiccupGitHub(), THREE, FRESH).saved;
            saved.t == 3 && !Pass(HiccupGitHub(), lim, PassMany(HiccupGitHub(), lims, saved)).status.complete
  {
    var gh := HiccupGitHub();
    hide Pass, CleanListing, ListedAs, Stuck, HiccupGitHub;
    ServesOneRun();
    BadPageLeavesReason();
    ReasonsAreNeverWithdrawn(gh, lims, lim, Pass(gh, THREE, FRESH).saved, ("r", 1), Some(1), Some("u"));
  }

  lemma ServesOneRun()
    ensures CleanListing(OneRun()) && ListedAs(HiccupGitHub(), ("r", 1), Some(1), Some("u"))
  {
  }

  lemma BadPageLeavesReason()
    ensures var saved := Pass(HiccupGitHub(), THREE, FRESH).saved;
            saved.t == 3 && Stuck(saved.tables.runs, ("r", 1), Some(1), Some("u"))
  {
    var gh := HiccupGitHub();
    var run := OneRun().runsOf("r")[0];
    assert FetchJobs(gh, 2, "r", run, 1, 2, 3) == Fetched([], false, 1, 3, 3, Some(MalformedJobsPage));
    EmptyBatch();
    hide FetchJobs, JobReasons, StorableJobs, NextRepo, AdvanceRun;
    var n := Iterate(gh, THREE, Start(FRESH));
    assert n.Stop?;
  }
}
