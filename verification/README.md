# Runner Dashboard backend: verified model

The backend of the runner dashboard keeps state over unbounded runs in seven groups of code: a
resumable GitHub job-metrics collector; a lock table, a cache and a dispatch queue shared by
concurrent callers; an append-only activity log with its readers, tailer, retention and context
packing; an ETag cache; two controllers (the disk-full cordon and the dispatch quota); a trend fit;
and an encrypted transcript store. This project models that code in Dafny and proves what it keeps
over every input, every run and, where callers interleave, every interleaving.

Each module models one source file or one part of it. Code that changes state step by step is a
class or a method with loops, proved equal to a specification function; the theorems are lemmas
about that function and about runs of it.

| modules | source | subject |
|---|---|---|
| `JobMetrics`, `Collector`, `CollectorService` | `backend/job_metrics.py`, `backend/job_metrics_collector.py` | tables, cursor, one pass, and the stateful collector |
| `CollectorSoundness`, `CollectorCoverage` | the same | "complete means stored"; progress, termination and coverage |
| `CollectorStatus`, `CollectorReasons` | the same | when a cycle reports complete; reasons that are never withdrawn |
| `CollectorReport`, `CollectorCost` | the same | what a pass reports; how its counts and requests add up |
| `FixLocks`, `FixLockRuns`, `FixLockGrants` | `backend/ci_fix_locks.py` | the lock table, every interleaving of processes on it, and when a lock is granted |
| `CacheStore`, `SingleFlight` | `backend/cache_utils.py` | the store with batch eviction, and the stampede protocol |
| `Lru`, `EtagCache` | `backend/gh_etag_cache.py` | the bounded LRU and its inclusion property |
| `DispatchPaths`, `DispatchGlob`, `DispatchQueue` | `backend/dispatch_routing.py` | declared paths and their overlap, patterns, admission and waking |
| `ActivityLog`, `ActivityAccept`, `ActivityRuns` | `backend/activity.py` | ingest, which batches are accepted, dedupe, quota and paging |
| `Tailer` | `backend/activity_claude_tailer.py` | incremental line tailing |
| `Retention`, `RetentionRuns` | `backend/activity_transcript.py` | chunk table, age limit and byte caps with gaps |
| `RetentionSlots` | `backend/activity_transcript.py`, `clients/fleet/fleet_rec.py` | the numbering that gaps share with the recorder |
| `Spool` | `backend/activity_transcript.py` | the files under the chunk table |
| `Sessions` | `backend/activity_sessions.py` | latest event and status per session |
| `TierPacking`, `Context`, `ContextText`, `ContextOrder`, `ContextClaims` | `backend/activity_context.py` | packing under a token budget, the JSON text, event order, claims |
| `Quota` | `backend/dispatch_quota.py` | the sliding-window limiter |
| `Cordon`, `CordonTicks` | `backend/disk_full_cordon.py` | the hysteresis state machine, and each tick by the ticks before it |
| `DiskTrend`, `DiskBaseline` | `backend/disk_fill_trend.py` | the least-squares projection and the EWMA baseline |
| `EncryptedStore`, `EncryptedRuns`, `EncryptedLedger` | `backend/encrypted_transcripts.py` | the sequence-bound chunk stream, tombstones, and what callers are told |

## Conventions

SQLite transactions are atomic steps on maps and sequences. Clocks are real numbers that do not run
backwards where a statement says so. GitHub is a function from the number of the request and the
request to any answer; for progress and coverage it serves a fixed listing. Ciphers, identifiers,
redaction, JSON sizes and a line's blankness after decoding are parameters with the properties the
statements name. Where a property of the code fails, a lemma gives an input that shows it and
another says exactly when it holds.

## What turned out not to hold

- A page cap of 1 or 2 is accepted, but an unread run under the cursor then stays unread over any
  number of passes (`CollectorCoverage.FewerPagesStall`; exact condition for progress in
  `CollectorCoverage.PassAdvancesIff`).
- A reason recorded for a run state is merged into every later save of that state, so one malformed
  jobs page keeps the row open and every later pass from reporting complete, although the listing is
  clean (`CollectorReasons.OneBadPageIsForever`; exact condition in
  `CollectorStatus.CompleteStatusIff`).
- The cursor names a run state but not its repository, so after a rename the collector resumes in the
  middle and marks the row complete although the first jobs are stored under the old name only
  (`CollectorSoundness.RenamedRepositoryIsMarkedComplete`; exact condition in
  `CollectorSoundness.CompleteUnderNewNameIff`).
- A second `attach_run` on one lock, or releasing and acquiring again at one clock reading, lets a
  reader's late cleanup delete a live lock, each even when the other is ruled out
  (`FixLockRuns.SecondAttachLosesTheLock`, `FixLockRuns.SameClockReadingLosesTheLock`; exact condition
  in `FixLockRuns.ExclusionIff`).
- `get_or_set` is documented to call the factory exactly once per miss. Two factories overlap when a
  factory returns None, when the value is forgotten before the waiters look, or when callers look with
  a time to live that the stored value is past (`SingleFlight.OverlapWithoutUsableValue`; exact
  condition in `SingleFlight.ExactlyOnceIff`).
- An eviction batch of 0 leaves the cache unbounded (exact condition in `CacheStore.BoundedIff`).
- One wildcard is enough to miss a conflict: a directory and a pattern can claim a common file without
  overlapping, as `backend` and `*.py` do (`DispatchPaths.OneWildcardMisses`; exact condition in
  `DispatchPaths.OverlapIsExactIff`).
- A dispatch without a repository name is held up by sessions of every repository, but only the
  release of a session without a name can wake it. So it may wait with no session left, and it waits
  for good while all sessions and dispatches are named (`DispatchQueue.NamelessDispatchIsForgotten`,
  `DispatchQueue.NamelessWaitsForever`; exact condition for one dispatch in
  `DispatchQueue.DispatchKeepsGoodIff`, over all runs in `DispatchQueue.NoLostWakeupIff`).
- A retention gap takes the number after the recorder's largest, which is the number of the
  recorder's own next event. That event is then refused, and every batch that carries it is rolled
  back for good (`RetentionSlots.GapTakesTheNextSlot`, `RetentionSlots.GapBlocksTheRecorder`; exact
  condition in `RetentionSlots.NextEventIsAcceptedIff`).
- Sessions whose names differ only in `/` and `_` share spool files, so the body of one replaces or
  removes the other's (`Spool.SharedFileIsOverwritten`; exact condition in `Spool.HoldsBodiesIff`).
  The rows are right all the same (`Spool.RowsAreTheTables`).
- A dispatch quota with a cap below 1 raises IndexError for every named principal
  (`Quota.IndexErrorIff`).
- Samples that tie at the greatest timestamp make the projection depend on their order
  (`DiskTrend.TiesMakeADifference`; exact condition in `DiskTrend.OrderMattersOnlyThroughLatest`).
- Cutting a chunk file back and appending again goes unnoticed, and two valid chunks then exist for
  one place (`EncryptedRuns.CutAndAppendIsNotNoticed`; exact condition for every edit in
  `EncryptedRuns.AppendAfterEditIff`).

## Model

| member | source | states |
|---|---|---|
| JobMetrics.NoReasonsMeansClean | backend/job_metrics_collector.py:320-335 | A batch leaves no reason exactly when every job in it has a valid identifier, attempt and payload |
| JobMetrics.StatsDb.SaveJobBatch | backend/job_metrics.py:62-146 | One transaction upserts the jobs, merges the reasons of the same run state and marks the row complete only without reasons |
| JobMetrics.UpsertWritesTheLast | backend/job_metrics.py:87-124 | A save writes, under each identifier of the batch, the contents of the last job that has it, over whatever was stored, and nothing else |
| JobMetrics.StatsDb.CompletedRunIsUnchanged | backend/job_metrics.py:193-207 | A run is skipped exactly when it is concluded and its row is complete for the same attempt and update marker |
| JobMetrics.SkippedAfterSaveIff | backend/job_metrics.py:193-207 | After a batch for one state of a run the run is skipped if and only if it is listed as concluded with that positive attempt and that update marker, and the batch was complete without a reason given or stored earlier for that state |
| Collector.PassStaysWithinCaps | backend/job_metrics_collector.py:199-376 | Whatever GitHub answers, a pass makes at most max_pages requests and takes at most max_repos repository and max_runs run steps |
| CollectorSoundness.FetchReadsSlice | backend/job_metrics_collector.py:97-125 | Reading on from any page returns exactly the jobs up to the page it stops before, and all the rest when it reports the end |
| CollectorSoundness.SaveExtendsPrefix | backend/job_metrics_collector.py:336-348 | Saving a read that continues a stored prefix stores the longer prefix, and "complete" at the end of the list is justified |
| CollectorSoundness.BatchIsStored | backend/job_metrics.py:87-124 | Where an identifier names one job of one run, a saved batch is stored with its contents and what was stored of other runs keeps its own |
| CollectorSoundness.RateLimitSound | backend/job_metrics_collector.py:309-319 | An exception in the middle of a run stores no job and loses nothing that was read |
| CollectorSoundness.PassKeepsSound | backend/job_metrics_collector.py:128-399 | One pass over answers that may change or fail keeps every complete mark justified and the cursor's claim true |
| CollectorSoundness.CompleteMeansStored | backend/job_metrics_collector.py:299-359 | After any passes with any caps, a row marked complete has every job of its run state stored, if a run is only ever listed under one repository; and each stored row says what the job says, if job identifiers are distinct there |
| CollectorSoundness.RenamedRepositoryIsMarkedComplete | backend/job_metrics_collector.py:82-94 | A rename between two passes yields a complete row without the jobs of its first page |
| CollectorSoundness.CompleteUnderNewNameIff | backend/job_metrics_collector.py:82-94 | For a run without a row and without a job under the repository name, whatever else is stored, a run step that marks the row complete has stored all its jobs if and only if the cursor did not stand in the middle of that run state |
| CollectorCoverage.PassAdvancesIff | backend/job_metrics_collector.py:199-369 | A pass over a fixed listing finishes the cycle or moves the saved cursor strictly forward if and only if max_pages covers the requests needed at the cursor |
| CollectorCoverage.ThreePagesAdvance | backend/job_metrics_collector.py:199-369 | A page cap of three or more always makes progress |
| CollectorCoverage.StallsInPlace | backend/job_metrics_collector.py:142-298 | With a cap of one or two, a pass that finds an unread run under the cursor changes neither cursor nor tables |
| CollectorCoverage.FewerPagesStall | backend/job_metrics_collector.py:142-298 | Over any number of such passes cursor and tables stay as they were |
| CollectorCoverage.OneRunIsNeverRead | backend/job_metrics_collector.py:142-298 | From the empty store a single run is never read with such caps |
| CollectorCoverage.PassCovers | backend/job_metrics_collector.py:199-369 | A pass keeps "everything before the cursor is handled", and when it ends the cycle all is handled and the cursor is back at the start |
| CollectorCoverage.PassLeavesLess | backend/job_metrics_collector.py:199-369 | A pass that does not end the cycle lowers a lexicographic measure of what is left |
| CollectorCoverage.Cycle | backend/job_metrics_collector.py:128-399 | With page caps of three or more, finitely many passes finish the cycle |
| CollectorCoverage.FinishedCycleMissesNothing | backend/job_metrics_collector.py:199-369 | From any store whose complete marks are justified, at the start or in the middle of a cycle, the cycle ends with a row for the listed state of every valid run and every storable job of it stored, with its contents if job identifiers are distinct; every other record left a reason; the next cycle starts from there |
| CollectorCoverage.CompleteStatusMeansEverythingStored | backend/job_metrics_collector.py:383-385 | From any store whose complete marks are justified, when the status says complete, every listed repository and run is valid and every job is stored, with its contents if job identifiers are distinct |
| CollectorStatus.CompleteStatusIff | backend/job_metrics_collector.py:378-385 | From any store whose complete marks are justified the cycle ends with a complete status if and only if the listing is clean, nothing was skipped so far, and every open row belongs to a run still to come and carries no reason for the state in which that run is listed |
| CollectorStatus.FirstCompleteStatusIff | backend/job_metrics_collector.py:378-385 | From the empty store that is the case if and only if the listing is clean |
| CollectorStatus.ReadSettles | backend/job_metrics.py:79-92 | Reading a run to its end completes its row exactly when the row had no reason for this state |
| CollectorReasons.ReasonsAreNeverWithdrawn | backend/job_metrics.py:79-92 | Whatever GitHub answers, a row with a reason for the state in which its run is listed stays open and no pass reports complete |
| CollectorReasons.OneBadPageIsForever | backend/job_metrics_collector.py:336-348 | One malformed jobs page over an otherwise clean listing does that |
| CollectorReport.PassReports | backend/job_metrics_collector.py:128-399 | A pass went through everything exactly when it met no cap, no bad page and no exception; otherwise it names the cap its count is at, the kind of page, or the exception its last request raised, with the seconds to wait; its pages are its requests unless one raised |
| CollectorReport.CompleteIff | backend/job_metrics_collector.py:378-385 | A pass calls itself complete exactly when it went through everything, has nothing to report and left no row open |
| CollectorReport.CompleteSawTheEnd | backend/job_metrics_collector.py:216-231 | Whatever else GitHub answers, a pass only claims to have gone through everything after it was answered a short page of repositories |
| CollectorReport.LeavesAfterAShortPage | backend/job_metrics_collector.py:238-277 | A repository is only left when it has no name or its last run page was short |
| CollectorReport.RaisedReadLeaves | backend/job_metrics_collector.py:299-319 | An exception while jobs are read writes no job and ends the pass; a rate limit leaves the run an open row for its state, any other exception leaves all rows |
| CollectorReport.NewRowsAreCounted | backend/job_metrics_collector.py:336-349 | Whatever GitHub answers, every job row a pass creates is among the jobs it counts |
| CollectorCost.PassAddsUp | backend/job_metrics_collector.py:199-369 | Over a fixed listing a pass counts exactly the repositories and runs between its cursors, no job that is not there, and makes no more requests than there are pages in between and the two it holds in memory |
| CollectorCost.CycleAddsUp | backend/job_metrics_collector.py:128-399 | However a cycle is cut into passes, they report each repository and run that was left exactly once and no job twice, and repeat at most two requests for each further pass |
| CollectorCost.WholeCycleAddsUp | backend/job_metrics_collector.py:128-399 | A whole cycle reports each listed repository and each run of a named one once |
| CollectorService.JobCollector.ReadJobPages | backend/job_metrics_collector.py:97-125 | The page loop returns what the specification of a read says |
| CollectorService.JobCollector.SortJobs | backend/job_metrics_collector.py:320-335 | The job loop returns exactly the storable jobs and the reasons of the others |
| CollectorService.JobCollector.Store | backend/job_metrics_collector.py:336-348 | What was read is written with its persistent reasons in one batch |
| CollectorService.JobCollector.VisitRun | backend/job_metrics_collector.py:299-369 | Resuming, reading, saving and advancing one run is the specified step |
| CollectorService.JobCollector.VisitRepos | backend/job_metrics_collector.py:226-263 | The repository part of an iteration touches the database only through a visited run, so that the tables the pass reasons about are those of the database, and otherwise takes the specified step |
| CollectorService.JobCollector.VisitRuns | backend/job_metrics_collector.py:264-298 | The run part of an iteration skips a run by the row in the database, and leaves the tables the pass reasons about equal to the database |
| CollectorService.JobCollector.CollectJobMetrics | backend/job_metrics_collector.py:128-399 | The stateful pass changes tables and cursor and answers exactly as the specified pass; caps out of range are refused |
| FixLocks.CIFixLockManager.LiveRows | backend/ci_fix_locks.py:92-117 | Exactly the rows that have not ended are returned, and exactly the ended ones among those asked for are deleted |
| FixLocks.CIFixLockManager.Acquire | backend/ci_fix_locks.py:119-145 | A lock is granted exactly when no live row holds its key, and a refusal rolls back |
| FixLocks.CIFixLockManager.AttachRun | backend/ci_fix_locks.py:147-154 | A held lock is bound to the run and nothing else changes |
| FixLocks.CIFixLockManager.Release | backend/ci_fix_locks.py:156-162 | The row of the key is gone and nothing else changes |
| FixLocks.CIFixLockManager.ListLocks | backend/ci_fix_locks.py:174-177 | The snapshot is the rows that have not ended, and listing deletes the others |
| FixLockRuns.StepKeepsInv | backend/ci_fix_locks.py:92-162 | Every step of every process keeps: rows are what was granted, a missing row means its hold is over, pending deletes target only ended holds |
| FixLockRuns.HoldPersists | backend/ci_fix_locks.py:99-106 | A hold that nobody releases or acquires keeps its deadline through any interleaving |
| FixLockRuns.MutualExclusion | backend/ci_fix_locks.py:119-145 | Between two successful acquires of one PR without a release, the first deadline has passed or its attached run has ended |
| FixLockRuns.SecondAttachLosesTheLock | backend/ci_fix_locks.py:147-154 | A second attach lets a late reader delete a live lock although every acquire stamps a later deadline |
| FixLockRuns.SameClockReadingLosesTheLock | backend/ci_fix_locks.py:99-106 | Release and acquire at one clock reading defeat the deadline guard although no lock binds two runs |
| FixLockRuns.ExclusionIff | backend/ci_fix_locks.py:92-162 | Over all interleavings that keep a policy an acquire only succeeds once the last hold of its key is over, if and only if the policy asks for one attach per hold and for later deadlines |
| FixLockGrants.SameKeyIff | backend/ci_fix_locks.py:78-80 | Two requests mean the same lock exactly when their pull requests are equal and their repository names, but for case and white space around them |
| FixLockGrants.GrantedIff | backend/ci_fix_locks.py:82-90 | In any interleaving an acquire succeeds if and only if the key has no row, or the clock has reached the stamp of its last grant plus ttl, or the run attached since is reported over |
| FixLockGrants.FirstAcquireIsGranted | backend/ci_fix_locks.py:119-145 | A key never granted before is granted |
| FixLockGrants.LocksComeBack | backend/ci_fix_locks.py:82-84 | Every lock can be acquired again once ttl has passed, whatever the probe says |
| FixLockGrants.ListedIff | backend/ci_fix_locks.py:174-177 | A snapshot lists a key if and only if it has a row, ttl has not passed since its last grant, and no run attached since is reported over |
| FixLockGrants.FinishedIsTheSnapshot | backend/ci_fix_locks.py:92-117 | A read that nobody interrupts, row by row, deletes exactly what the snapshot leaves out |
| CacheStore.Cache.Get | backend/cache_utils.py:111-132 | A value is returned exactly while younger than the time to live, and then moves to the recent end |
| CacheStore.Cache.Set | backend/cache_utils.py:134-155 | A new key evicts the oldest batch from a full store; the value ends up most recent |
| CacheStore.StoreStaysBounded | backend/cache_utils.py:148-155 | With a positive batch no run exceeds the limit or repeats a key |
| CacheStore.SetIsFound | backend/cache_utils.py:134-155 | The entry just set is not among the evicted |
| CacheStore.BoundedIff | backend/cache_utils.py:148-155 | Every run stays within the limit if and only if limit and batch are both positive |
| CacheStore.KeptWhileRecent | backend/cache_utils.py:111-155 | A value just set or found is found again until its time is up, as long as no more other keys than the limit less a batch are used in between |
| CacheStore.SetLeaves | backend/cache_utils.py:148-155 | A set leaves one entry more for a new key, and in a full store a batch less |
| CacheStore.DeletedIsGone | backend/cache_utils.py:157-159 | What was deleted is not found, and everything else is found as before |
| CacheStore.OnlyHitsAreUses | backend/cache_utils.py:121-132 | A lookup moves an entry to the recent end exactly when it is young enough |
| SingleFlight.StepKeepsInv | backend/cache_utils.py:203-227 | Every step keeps: before the first success all callers past the fast path share the registered lock, afterwards all hold the stored value |
| SingleFlight.FactoriesDoNotOverlap | backend/cache_utils.py:208-225 | In every interleaving with a usable stored value no two factories overlap, none runs after the first success, and every caller returns that value |
| SingleFlight.StoredValueIsFinal | backend/cache_utils.py:216-221 | Once stored, the value never changes: there is one success |
| SingleFlight.OverlapWithoutUsableValue | backend/cache_utils.py:204-225 | A None result, a forgotten value, or looks with a time to live the value is past let two factories run at once |
| SingleFlight.ExactlyOnceIff | backend/cache_utils.py:203-227 | Factories never overlap, in any interleaving that keeps to a policy, if and only if it allows none of the three |
| EtagCache.Cache.Get | backend/gh_etag_cache.py:49-55 | The entry of the key is returned and marked recent |
| EtagCache.Cache.Put | backend/gh_etag_cache.py:57-65 | A body within the limit becomes most recent and the oldest entries over the limit go |
| EtagCache.SmallerCacheIsIncluded | backend/gh_etag_cache.py:49-70 | After any trace the smaller cache is an order-preserving part of the larger, and neither is over its limit |
| EtagCache.RaisingTheLimitLosesNoHit | backend/gh_etag_cache.py:49-65 | A hit of the smaller cache is the same hit of the larger |
| EtagCache.KeptWhileRecent | backend/gh_etag_cache.py:49-65 | A response just stored or hit is hit again, the same, as long as the cache is not cleared and fewer other keys than the limit are used in between |
| EtagCache.CacheKeySeparates | backend/gh_etag_cache.py:76-78 | Keys of different credentials or paths differ, if fingerprints have no line break |
| DispatchPaths.PathsOverlap | backend/dispatch_routing.py:280-301 | The nested loops decide the overlap relation |
| DispatchPaths.NormalFormIff | backend/dispatch_routing.py:275-277 | What a path is normalized to is exactly its middle: the text without white space around it, with slashes for backslashes, without slashes around that |
| DispatchPaths.SpacesAround | backend/dispatch_routing.py:276 | White space around a path makes no difference |
| DispatchPaths.SlashesAround | backend/dispatch_routing.py:276-277 | Nor do slashes or backslashes around it, and backslashes for slashes in it |
| DispatchPaths.OverlapIff | backend/dispatch_routing.py:280-301 | Declarations overlap exactly when one claims everything, or two of their bare paths are equal, one a directory above the other, or one a pattern for the other |
| DispatchPaths.SpellingDoesNotMatter | backend/dispatch_routing.py:280-301 | Declarations of the same bare paths overlap the same others |
| DispatchGlob.GlobIff | backend/dispatch_routing.py:298 | A pattern matches a name exactly when the name can be cut into pieces that its stars, question marks, classes and characters match |
| DispatchGlob.EveryPatternHasUnits | backend/dispatch_routing.py:298 | Every pattern is made of such units, an unclosed bracket standing for itself |
| DispatchGlob.ListedPlain | backend/dispatch_routing.py:298 | Without a hyphen a class lists its characters |
| DispatchGlob.ListedRange | backend/dispatch_routing.py:298 | A range lists what lies between its ends |
| DispatchGlob.NegatedLists | backend/dispatch_routing.py:298 | A negated class matches what it does not list |
| DispatchPaths.OverlapIsSymmetric | backend/dispatch_routing.py:280-301 | The order of the two declarations does not matter |
| DispatchPaths.PlainOverlapIsAConflict | backend/dispatch_routing.py:282-299 | Without wildcards two declarations, as they are written, overlap exactly when some file is claimed by both, or one has no path and the other claims everything |
| DispatchPaths.OneWildcardMisses | backend/dispatch_routing.py:292-299 | A directory and a pattern can claim one file without overlapping |
| DispatchPaths.OverlapIsExactIff | backend/dispatch_routing.py:280-301 | Overlap decides a common file for all declarations if and only if neither side may use wildcards |
| DispatchQueue.DispatchQueueManager.CanDispatch | backend/dispatch_routing.py:327-333 | The first overlapping active session of the repository blocks |
| DispatchQueue.DispatchQueueManager.TryDispatch | backend/dispatch_routing.py:335-376 | A dispatch becomes an active session or joins the end of the queue with its blocker |
| DispatchQueue.DispatchQueueManager.ReleaseSession | backend/dispatch_routing.py:386-405 | A release splits the queue into what is handed back and what stays |
| DispatchQueue.DispatchQueueManager.OnPrMergedOrClosed | backend/dispatch_routing.py:407-420 | All sessions of the pull request are released one after another |
| DispatchQueue.DispatchKeepsGoodIff | backend/dispatch_routing.py:327-376 | A dispatch keeps "no overlap, and every queued item waits for a session of its repository" if and only if it names a repository, is let through, or is held up by a session without a name |
| DispatchQueue.ReleaseKeepsInv | backend/dispatch_routing.py:386-405 | A release keeps the invariant; what it hands back is the queue filtered to the dispatches nobody blocks any more, and what stays is the queue filtered to the others, both in order |
| DispatchQueue.RunsKeepInv | backend/dispatch_routing.py:307-420 | In every state that named dispatches reach, sessions of one repository do not overlap and every queued item is blocked by an active session of its repository |
| DispatchQueue.NoLostWakeupIff | backend/dispatch_routing.py:307-420 | Over all runs no sessions of one repository overlap and no wakeup is lost if and only if every dispatch must name its repository |
| DispatchQueue.NamelessDispatchIsForgotten | backend/dispatch_routing.py:314-333 | A queued dispatch without a repository name still waits when no session is left |
| DispatchQueue.NamelessWaitsForever | backend/dispatch_routing.py:396-402 | While no session and no dispatch has a blank name it stays queued under every later dispatch, attachment and release |
| DispatchQueue.ClosingEndsThePr | backend/dispatch_routing.py:407-420 | Closing a pull request ends its sessions and no others |
| DispatchQueue.SameRepoIff | backend/dispatch_routing.py:313-318 | Repositories are compared but for case and white space around their names |
| ActivityLog.ActivityStore.IngestBatch | backend/activity.py:163-242 | The loop with its running count and size and the rollback does what the specified transaction does |
| ActivityLog.ActivityStore.AppendEvent | backend/activity.py:134-161 | A new event is added, an identical retry returns the stored one, a conflict changes nothing |
| ActivityAccept.AcceptedIff | backend/activity.py:163-242 | A batch is accepted if and only if it is well formed, none of its sessions and sources is another principal's, each slot is free or holds that very event, new identifiers are new, and its new events and bytes fit beside those charged in the last 60 seconds; it then adds and charges exactly its new events |
| ActivityAccept.ChargedAfterwards | backend/activity.py:194-232 | An accepted call is charged to its principal and nobody else in every window still to come |
| ActivityAccept.RefusalNamesTheFirst | backend/activity.py:201-241 | A refused transaction names what is wrong with the first event that does not fit |
| ActivityAccept.AppendedIff | backend/activity.py:134-161 | A single append is accepted exactly when the very event is stored, and then changes nothing, or its slot and its identifier are free |
| ActivityRuns.IngestExtends | backend/activity.py:163-242 | A batch is committed whole or not at all, the log is only extended, and slots, identifiers and bindings stay unique |
| ActivityRuns.RetryChangesNothing | backend/activity.py:211-219 | Re-sending an accepted batch returns the same events, adds no row and uses no quota, whatever came in between |
| ActivityRuns.QuotaHoldsInEveryWindow | backend/activity.py:192-232 | Under fixed limits and a clock that does not run backwards no 60-second window holds more new events or bytes of a principal than allowed, and the charges add up to the events of the log and their encoded sizes |
| ActivityRuns.PageIsSlice | backend/activity.py:244-271 | A page is exactly the filtered log between its cursor and the next |
| ActivityRuns.PageHoldsTheLimit | backend/activity.py:253-271 | A page holds the matching events behind its cursor up to its limit, and has a next cursor exactly when there are more |
| ActivityRuns.PagesAreTheFilteredLog | backend/activity.py:244-271 | Pages followed from 0 while the log grows together are the filtered log at the last page |
| Tailer.ClaudeSessionTailer.TailFile | backend/activity_claude_tailer.py:316-326 | The line loop hands on the numbered non-blank lines and stops at the last newline |
| Tailer.ClaudeSessionTailer.TailOnce | backend/activity_claude_tailer.py:297-355 | A pass over all files updates exactly the checkpoints that moved |
| Tailer.TailFromComposes | backend/activity_claude_tailer.py:314-326 | Reading up to any length and then on is reading once |
| Tailer.TailHandsOnEveryLine | backend/activity_claude_tailer.py:316-326 | Text made of complete lines and a rest yields exactly the non-blank lines, numbered on, and leaves the rest |
| Tailer.TailEndsAtLineStart | backend/activity_claude_tailer.py:316-355 | The checkpoint stays just after a newline and no newline is left behind it |
| Tailer.PassesJoin | backend/activity_claude_tailer.py:297-355 | Passes one after another read like one pass over all their files |
| Tailer.PassesAreOnePass | backend/activity_claude_tailer.py:297-355 | For an append-only file any passes at any lengths equal one pass over the last content |
| Tailer.EveryLineExactlyOnce | backend/activity_claude_tailer.py:297-355 | Each complete non-blank line is handed on once, numbered 1, 2, 3 and so on |
| Tailer.QuietFilesWriteNothing | backend/activity_claude_tailer.py:319-355 | A file without a new complete line hands on nothing and writes no checkpoint |
| Retention.TranscriptChunkStore.PutChunk | backend/activity_transcript.py:105-135 | A chunk is stored once in order, a retry returns the row, a conflict changes nothing |
| Retention.TranscriptChunkStore.DeleteChunk | backend/activity_transcript.py:161-173 | Exactly the chunk of the key goes, and its size is returned |
| Retention.RemoveChunk | backend/activity_transcript.py:327-360 | A removal deletes the chunk and appends one gap, or does nothing when there is no chunk |
| Retention.EnforceByteCap | backend/activity_transcript.py:363-373 | The loop ends having removed the planned chunks of the selection |
| Retention.RunTranscriptRetention | backend/activity_transcript.py:292-324 | The age loop, the global cap and the node caps do what the specified sweep does |
| Retention.GapIsAppended | backend/activity_transcript.py:331-358 | A gap's sequence number is free, so the log always accepts it and stays unique |
| Retention.InsertKeepsValid | backend/activity_transcript.py:105-159 | The table stays keyed and in list order when a chunk is stored |
| RetentionSlots.GapsTakeTheNextSlots | backend/activity_transcript.py:331-340 | The gaps of a session take exactly the numbers after the recorder's largest, one for each removal |
| RetentionSlots.NextEventIsAcceptedIff | clients/fleet/fleet_rec.py:154-158 | After a sweep a new recorder event with room in the quota is accepted if and only if its slot was free and no gap took it; for the recorder's next number, if and only if no chunk of its session was removed |
| RetentionSlots.GapBlocksTheRecorder | backend/activity_transcript.py:331-358 | After a sweep that removed a chunk of the session every batch with the recorder's next event is refused and rolled back, whatever is logged in between |
| RetentionSlots.GapTakesTheNextSlot | backend/activity_transcript.py:331-340 | One chunk, swept by age, whose gap takes number 0 |
| Spool.SpooledChunkStore.PutChunk | backend/activity_transcript.py:105-135 | Rows and files change as specified; a retry is compared with the file |
| Spool.SpooledChunkStore.DeleteChunk | backend/activity_transcript.py:161-173 | The row goes and the file of its path with it |
| Spool.SpooledChunkStore.GetChunkBody | backend/activity_transcript.py:137-149 | A stored row's body is what its file holds now |
| Spool.RowsAreTheTables | backend/activity_transcript.py:105-173 | For any session names, after any operations the rows are those of the table that holds the bodies itself |
| Spool.DirIff | backend/activity_transcript.py:110 | Two sessions share a directory exactly when their names differ at most where each has a slash or an underscore |
| Spool.SharedFileIsOverwritten | backend/activity_transcript.py:110 | Two sessions with one directory: reading the first returns the body of the second |
| Spool.HoldsBodiesIff | backend/activity_transcript.py:105-173 | Every put, delete and read after every run on a set of sessions answers as that table would if and only if no two of them share a directory |
| RetentionRuns.OverCapIsShortestPrefix | backend/activity_transcript.py:363-373 | A cap takes the shortest oldest-first prefix that brings the rest within the limit |
| RetentionRuns.CapLeavesTheRest | backend/activity_transcript.py:363-373 | What stays of the selection is exactly the list after that prefix |
| RetentionRuns.EveryRemovalIsRecorded | backend/activity_transcript.py:292-360 | A sweep removes distinct chunks, leaves all others in order, and appends one gap each with a fresh sequence number |
| RetentionRuns.GapsBalance | backend/activity_transcript.py:327-360 | Whatever is asked to be removed, stored or not and however often, there is a gap for each chunk that goes and for nothing else |
| RetentionRuns.GapsNameTheChunks | backend/activity_transcript.py:341-358 | The i-th gap of a sweep is an event of the recorder in the session, on the node and for the principal of the i-th removed chunk |
| RetentionRuns.SweepHoldsEverything | backend/activity_transcript.py:313-324 | Afterwards no chunk is older than the cutoff and the global and every positive node cap hold together |
| Sessions.GroupLatest | backend/activity_sessions.py:103-111 | The dict loop computes the projection |
| Sessions.ProjectionHoldsTheLatest | backend/activity_sessions.py:103-111 | Exactly the sessions with an event are held, each with one that none of theirs is newer than |
| Sessions.OrderDoesNotMatter | backend/activity_sessions.py:103-111 | Over unique slots every order of the events gives the same projection |
| Sessions.LatestOnlyMovesUp | backend/activity_sessions.py:103-111 | More events only move a session's latest event upward; older ones leave it |
| Sessions.StatusIs | backend/activity_sessions.py:89-100 | A session is ended by the listed kinds of its source, uncaptured for fifteen minutes, and else live for ninety seconds, idle up to fifteen minutes and stale after that |
| Sessions.TimeOnlyFades | backend/activity_sessions.py:89-100 | Without a newer event a session only fades, never ends, and an ended one is not revived |
| TierPacking.PackTier | backend/activity_context.py:276-289 | The loop over a tier extends the cut candidate by candidate and stops for good at the first that does not fit |
| TierPacking.PackTiers | backend/activity_context.py:274-291 | The loop over all tiers yields the cut and the dropped counts |
| TierPacking.PackingIsLongest | backend/activity_context.py:276-289 | For a limit that fewer items never exceed sooner, the cut is the longest that fits |
| TierPacking.PackedAndDropped | backend/activity_context.py:283-289 | Packed plus dropped is the candidates of each tier, packed is a prefix, and nothing is packed after a drop |
| TierPacking.CountStopsAtTheFirst | backend/activity_context.py:276-289 | For any limit every candidate packed fits, and the next one does not |
| TierPacking.CutHasSize | backend/activity_context.py:274-289 | The first n candidates are n candidates |
| Context.BuildActivityContext | backend/activity_context.py:229-295 | The built context is the specified one; a budget out of range is refused |
| Context.PacksTheLongestPrefix | backend/activity_context.py:272-289 | The first n candidates are within the budget exactly when n is at most what is packed |
| Context.EnvelopeIsShorter | backend/activity_context.py:261-273 | The final envelope is never longer than the worst case the packing reckons with |
| Context.UsedIsWithinBudget | backend/activity_context.py:292-295 | used_tokens is within the budget, and when the envelope is tracked so is the estimate of the whole returned context |
| ContextText.ContextTells | backend/activity_context.py:244-295 | Each tier shows a prefix and counts what it drops; exactly the tiers that drop something, and the last when the scan hit its limit, are marked, in order; truncated means some tier is marked; used_tokens is the estimate of the whole text up to the budget, or of the items one by one |
| ContextText.RenderIsJson | backend/activity_context.py:94-100 | The text that is counted is the compact JSON object of the context's fields in the order of their names |
| ContextText.ListIs | backend/activity_context.py:94-100 | A list is written as its items between commas |
| ContextText.EstimateIsLeast | backend/activity_context.py:94-100 | The estimate is the least number of tokens of four characters that covers the text |
| ContextOrder.ChronologicalSorts | backend/activity_context.py:246 | The chronological list is sorted by the key and holds the same events |
| ContextOrder.StoreOrderDoesNotMatter | backend/activity_context.py:245-246 | The order the store returns events in does not change the chronological list the context is derived from |
| ContextClaims.ClaimedIffLatestAcquires | backend/activity_context.py:246 | In whatever order the store returns events, a target is claimed exactly when the latest of those that acquire or release it, by the sort key, acquires it and has not expired, and the claim is what that envelope and payload say |
| ContextClaims.StoreOrderDoesNotMatter | backend/activity_context.py:245-253 | Claims, claim conflicts and the newest claim time do not depend on the order the store returns events in |
| ContextClaims.DeriveClaims | backend/activity_context.py:146-179 | The event loop computes the fold |
| ContextClaims.ClaimedIffLastAcquires | backend/activity_context.py:161-178 | A target is claimed exactly when its last deciding event acquires it and has not lapsed |
| ContextClaims.ClaimsAreInForce | backend/activity_context.py:166-178 | No listed claim has expired, and each stands under its own target |
| ContextClaims.TakeoverIsReported | backend/activity_context.py:172-175 | Taking over a target another session holds is reported with both sessions and both agents, and the report is never withdrawn |
| ContextClaims.ConflictsAreTheReports | backend/activity_context.py:162-178 | The conflicts shown are the last report under each identifier and nothing else; renewing one's own claim reports none |
| ContextClaims.PairIs | backend/activity_context.py:173 | A conflict between two sessions has one identifier, whoever took over |
| ContextClaims.IssuesAreToldApart | backend/activity_context.py:163-173 | Conflicts of different issues have different identifiers |
| ContextClaims.NewestIs | backend/activity_context.py:153-156 | The newest time is that of the latest event of the job board or about a claim |
| Quota.DispatchQuota.PruneLocked | backend/dispatch_quota.py:161-182 | The index loop trims the list from the left and forgets an empty one |
| Quota.DispatchQuota.CheckAndRecordDispatch | backend/dispatch_quota.py:99-141 | The check answers and records as specified |
| Quota.DispatchQuota.CurrentCount | backend/dispatch_quota.py:143-148 | The count is the length of the pruned list |
| Quota.TrimIsFilter | backend/dispatch_quota.py:166-182 | On sorted times trimming from the left is filtering |
| Quota.KeptAreGranted | backend/dispatch_quota.py:112-140 | What is kept for a principal is exactly its granted dispatches inside the window |
| Quota.AllowedIffWindowHasRoom | backend/dispatch_quota.py:112-140 | A dispatch is allowed exactly when fewer than the cap were granted in the closed window ending now |
| Quota.IndexErrorIff | backend/dispatch_quota.py:117-121 | The check raises for a named principal if and only if the cap is below one |
| Quota.QuotaHoldsInEveryWindow | backend/dispatch_quota.py:112-140 | No closed interval of window length holds more granted dispatches than the cap |
| Quota.ResetStartsAfresh | backend/dispatch_quota.py:150-157 | After a reset a forgotten principal is allowed at once, if the cap is at least one, and the others get the answer they would have got |
| Quota.RetryAfterIsRight | backend/dispatch_quota.py:117-127 | Waiting retry_after with no other dispatch is enough, and waiting a second less is not |
| Cordon.FinishTick | backend/disk_full_cordon.py:145-167 | Flags follow the phase and later stops of a unit are dropped |
| Cordon.PlanCordonTick | backend/disk_full_cordon.py:85-142 | One tick is the specified step |
| Cordon.EachUnitIsStoppedOnce | backend/disk_full_cordon.py:153-160 | Deduplication stops the same named units, each once |
| Cordon.SwitchesAlternate | backend/disk_full_cordon.py:85-142 | No run fails; maintenance goes on and off strictly in turn and is on exactly while the phase is not normal |
| Cordon.ReadmissionIsEarned | backend/disk_full_cordon.py:133-140 | Readmission needs the readmit thresholds and exactly one cleanup of the episode in an earlier tick, and its sample does not trip |
| Cordon.HysteresisIff | backend/disk_full_cordon.py:66-78 | No sample both trips and readmits exactly when the readmit thresholds lie inside the trip thresholds |
| Cordon.StopsAreDue | backend/disk_full_cordon.py:118-128 | With finish_running_jobs a busy snapshot of a unit causes no stop before the drain timeout, and a stop is forced exactly when its snapshot is busy |
| Cordon.DrainStopsWhatItMay | backend/disk_full_cordon.py:118-131 | A draining tick stops every named active runner that is idle or out of time |
| CordonTicks.TickAnswers | backend/disk_full_cordon.py:85-167 | Maintenance goes on exactly when it is off and the disk is short, off exactly when it is on, cleaned once and within both readmit thresholds; the disk is cleaned once in an episode after it drained, and outside at most once an hour; the flags say whether maintenance is on |
| CordonTicks.StoppedIff | backend/disk_full_cordon.py:115-128 | A unit is stopped exactly when the host is draining and one of its active runners is idle or out of time |
| CordonTicks.DedupeFront | backend/disk_full_cordon.py:153-160 | The first stop of a unit is kept and everything else stays in order |
| DiskTrend.BaselineStaysInRange | backend/disk_fill_trend.py:53-88 | The mean stays within the observed range and the deviation between zero and its width |
| DiskBaseline.BaselineIsWeighted | backend/disk_fill_trend.py:68-88 | The mean is the weighted sum of all observations and the deviation that of their distances from the mean so far, with weights that add up to one |
| DiskBaseline.UpdateRefusedIff | backend/disk_fill_trend.py:64-74 | Exactly a weight out of range, another host and another metric are refused, in this order |
| DiskTrend.SortFacts | backend/disk_fill_trend.py:130 | The samples are sorted by time, and the last is the last given among the latest |
| DiskTrend.NoTimeToFullIff | backend/disk_fill_trend.py:138-144 | There is no time to full exactly when all timestamps are equal or the cross sum of the samples is not negative |
| DiskTrend.OrderMattersOnlyThroughLatest | backend/disk_fill_trend.py:130-150 | Two orders project the same exactly when all timestamps are equal, the cross sum is not negative, or the last of the latest samples has the same value |
| DiskTrend.TiesMakeADifference | backend/disk_fill_trend.py:130-150 | Swapping two samples that tie at the greatest timestamp changes the projection |
| DiskTrend.DistinctTimesHaveOneLatest | backend/disk_fill_trend.py:130-150 | With distinct timestamps the order is irrelevant |
| DiskTrend.RisingHasNoNegativeSlope | backend/disk_fill_trend.py:138-144 | Chebyshev's sum inequality for the fit |
| DiskTrend.NoAlertUnlessSpaceFalls | backend/disk_fill_trend.py:141-144 | Free space that never falls gives no alert |
| DiskTrend.FallingLineProjectsExactly | backend/disk_fill_trend.py:138-150 | Samples on a falling line project exactly latest over rate |
| DiskTrend.NoFitIffOneTime | backend/disk_fill_trend.py:136-139 | The denominator is zero exactly when all timestamps are equal |
| EncryptedStore.EncryptedTranscriptStore.CreateThread | backend/encrypted_transcripts.py:165-212 | A thread is created with an empty file, or the first failing check is reported and nothing changes |
| EncryptedStore.EncryptedTranscriptStore.AppendChunk | backend/encrypted_transcripts.py:214-233 | One record sealed for the next place is added at the end |
| EncryptedStore.EncryptedTranscriptStore.ReadChunks | backend/encrypted_transcripts.py:235-272 | The read loop opens every line for its place or fails |
| EncryptedStore.EncryptedTranscriptStore.CryptoShredThread | backend/encrypted_transcripts.py:274-291 | One tombstone is kept and key and chunks go |
| EncryptedStore.EncryptedTranscriptStore.PurgeExpired | backend/encrypted_transcripts.py:293-305 | The loop shreds the overdue threads of the listing |
| EncryptedStore.PurgeShredsExactlyTheExpired | backend/encrypted_transcripts.py:293-305 | Exactly the live expired threads are shredded and returned, and all others are untouched |
| EncryptedRuns.RunKeepsInv | backend/encrypted_transcripts.py:165-305 | After any run a live thread holds its whole log, and a shredded one neither key nor chunks |
| EncryptedRuns.ReadReturnsAppended | backend/encrypted_transcripts.py:235-272 | An authorized, unexpired read returns exactly the appended plaintexts in order |
| EncryptedRuns.EditedFileReadsPrefixOrFails | backend/encrypted_transcripts.py:258-271 | Without forging, an edited file reads exactly when it is a prefix of the original, and then returns that prefix |
| EncryptedRuns.CutAndAppendIsNotNoticed | backend/encrypted_transcripts.py:228-233 | Cutting a file back and appending leaves two valid chunks for one place |
| EncryptedRuns.AppendAfterEditIff | backend/encrypted_transcripts.py:228-271 | After any edit without forging and an append, reading succeeds, with the new chunk after what was left, if and only if the edited file was a prefix of the original |
| EncryptedRuns.ShreddedIsForever | backend/encrypted_transcripts.py:133-135 | A shredded thread can never again be read, appended to or created |
| EncryptedLedger.ReadAnswersIff | backend/encrypted_transcripts.py:235-272 | After any run a read gets everything appended if and only if the caller is one of those the thread was created for, or the authorizer accepts it, and ttl has not passed since the creation; it is told Unauthorized exactly when not accepted and Expired exactly when accepted too late |
| EncryptedLedger.AppendAnswersIff | backend/encrypted_transcripts.py:214-233 | After any run an append answers the number of chunks before it, or why not |
| EncryptedLedger.CreateAnswersIff | backend/encrypted_transcripts.py:165-212 | After any run a create answers a thread for the named principals that ends ttl seconds after its creation, or why not |
| EncryptedLedger.PurgeAnswersIff | backend/encrypted_transcripts.py:293-305 | After any run a purge answers the live threads of its listing whose ttl has passed |
| EncryptedLedger.ValidIdIff | backend/encrypted_transcripts.py:22 | A thread's name is one to 128 letters, digits, dots, underscores and hyphens, the first of them a letter or digit, and a line break may follow |
| EncryptedLedger.CreateFindsNothing | backend/encrypted_transcripts.py:165-212 | A create never takes over what is already there under its name |
| EncryptedLedger.NonBlankCounts | backend/encrypted_transcripts.py:226 | The number of an append counts the lines of the file that are not blank |
| EncryptedLedger.OneTombstone | backend/encrypted_transcripts.py:274-291 | After any run each thread has at most one tombstone |

## Left out

- JobMetrics.StatsDb.SaveJobBatch: one payload stands for the columns made of the job alone; the columns copied from the run (event, workflow name, status, conclusion), the observation time and the organization column are not modelled (one organization is).
- Decoding of loosely typed JSON: identifiers and attempts arrive as integers or absent, the persisted cursor as integers or absent, and an absent `updated_at` reads as the empty text.
- CollectorSoundness.CompleteMeansStored: assumes that `updated_at`, when present, is not the empty text, since the row keeps both apart and the cursor does not.
- FixLockRuns.MutualExclusion: needs one attach per acquisition and later deadlines for one key; `FixLockRuns.ExclusionIff` shows that both are needed.
- Ownership of lock releases: release and attach are keyed by pull request, so a release is an event on the key.
- The stale-while-revalidate accessor of the cache, deep copies and metrics.
- SingleFlight.FactoriesDoNotOverlap: one key; a stored value is assumed usable for every waiting caller.
- DispatchPaths.PathsOverlap: fnmatch as on POSIX, where it does not fold case; paths found in prompts are a parameter.
- The model-tier routing heuristics and the audit file of the dispatcher.
- Redaction and envelope validation of activity events are parameters; the newest-first scan is left to its callers.
- Tailer.EveryLineExactlyOnce: counts over passes that complete; a crash between a line and its checkpoint re-sends it with a new timestamp. Parsing a line, and whether it becomes a chunk or a capture gap, is not modelled.
- Retention.TranscriptChunkStore.PutChunk: the table holds the bodies itself; of the files that is true exactly under the condition of `Spool.HoldsBodiesIff`.
- Retention.TranscriptChunkStore.DeleteChunk: the same.
- Retention.RunTranscriptRetention: the metadata archive and metrics counters; ties in the list order are broken by insertion.
- ContextClaims.DeriveClaims: case folding on ASCII; timestamps are numbers instead of texts; session scope conflicts, live-session fields and the final sorting of the lists are not modelled.
- RetentionSlots.GapBlocksTheRecorder: the recorder client is only its numbering; its spool and its retries are not modelled.
- Context.BuildActivityContext: candidates, staleness and timestamps are given as their JSON texts; the order of the keys is that of the sorted serialization.
- Sessions.GroupLatest: paging, sorting and filtering of the session list.
- Quota.RetryAfterIsRight: with real clocks instead of floats, and no reset in between.
- Cordon.StopsAreDue: speaks of snapshots; when a tick lists one unit twice, an idle snapshot stops the unit although another is busy, as the code does.
- Cordon.PlanCordonTick: configuration loading, metrics and the multi-host alert.
- DiskTrend.BaselineStaysInRange: over the reals, so rounding, NaN and infinity are absent; the anomaly score is not modelled.
- EncryptedStore.EncryptedTranscriptStore.AppendChunk: real cryptography, file modes and a last line without its newline; edits of the metadata file are not modelled.
- GitHub and OAuth clients, subprocesses, systemd, HTTP routing and middleware: input and output.
