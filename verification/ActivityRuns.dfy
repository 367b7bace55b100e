/** What every run of ingests keeps, and what paging through a growing log returns. */
module ActivityRuns {
  import opened Common
  import opened ActivityLog

  /** Main result: ingest commits the whole batch or nothing, only ever extends the log, and
      keeps slots, event identifiers and bindings unique; an accepted batch is answered with
      the redacted events in order, all of them stored. */
  lemma IngestExtends(codec: Codec, s: Store, events: seq<Event>, principal: string, lim: Limits, now: real)
    requires UniqueLog(s.log) && Bound(s.log)
    ensures var r := Ingest(codec, s, events, principal, lim, now);
            && UniqueLog(r.store.log) && Bound(r.store.log) && s.log <= r.store.log
            && (r.answer.Err? ==> r.store == s)
            && (r.answer.Ok? ==>
                  && RedactAll(codec, events) == Some(r.answer.value)
                  && forall e :: e in r.answer.value ==> e in r.store.log && e.principal == principal)
  {
    hide UniqueLog, Bound, IngestAll, RedactAll;
    var checked := Checked(codec, events, principal, lim);
    if checked.Ok? {
      SafeIsPrincipals(codec, events, principal, lim);
      var used := Used(Recent(s.usage, now - WINDOW), principal);
      if IngestAll(codec, s.log, checked.value, principal, used, lim).Ok? {
        IngestAllExtends(codec, s.log, checked.value, principal, used, lim);
      }
    }
  }

  lemma SafeIsPrincipals(codec: Codec, events: seq<Event>, principal: string, lim: Limits)
    requires Checked(codec, events, principal, lim).Ok?
    ensures RedactAll(codec, events) == Some(Checked(codec, events, principal, lim).value)
    ensures forall e :: e in Checked(codec, events, principal, lim).value ==> e.principal == principal
  {
    var safe := Checked(codec, events, principal, lim).value;
    forall i | 0 <= i < |safe| ensures safe[i].principal == principal {
      assert events[i] in events;
    }
  }

  // ---------------------------------------------------------------- retries

  lemma StoredIsFound(log: Log, e: Event)
    requires UniqueLog(log) && e in log
    ensures FindSlot(log, e) == Some(e)
  {
    var found := FindSlot(log, e);
    assert found.Some? by {
      assert SameSlot(e, e);
    }
    var i :| 0 <= i < |log| && log[i] == e;
    var j :| 0 <= j < |log| && log[j] == found.value;
  }

  lemma NobodyElses(log: Log, e: Event, principal: string)
    requires Bound(log) && e in log && e.principal == principal
    ensures !HasForeign(log, e, principal)
  {
  }

  lemma {:induction false} RetryIsAnswered(
    codec: Codec, log: Log, events: seq<Event>, principal: string, used: Charge, lim: Limits)
    requires UniqueLog(log) && Bound(log)
    requires forall e :: e in events ==> e in log && e.principal == principal
    ensures IngestAll(codec, log, events, principal, used, lim) == Ok(Batch(log, events, 0, 0))
  {
    if events != [] {
      var init, e := events[..|events| - 1], events[|events| - 1];
      assert events == init + [e];
      RetryIsAnswered(codec, log, init, principal, used, lim);
      StoredIsFound(log, e);
      NobodyElses(log, e, principal);
      hide FindSlot, HasForeign, UniqueLog, Bound;
    }
  }

  /** Main result: once a batch was accepted, sending it again is answered with the same
      events, changes no row of the log and uses no quota, however full the quota is and
      whatever was ingested in between. */
  lemma RetryChangesNothing(
    codec: Codec, before: Store, events: seq<Event>, principal: string, lim: Limits, now: real, later: Store, now': real)
    requires UniqueLog(before.log) && Bound(before.log) && UniqueLog(later.log) && Bound(later.log)
    requires Ingest(codec, before, events, principal, lim, now).answer.Ok?
    requires Ingest(codec, before, events, principal, lim, now).store.log <= later.log
    ensures var r := Ingest(codec, later, events, principal, lim, now');
            && r.answer == Ingest(codec, before, events, principal, lim, now).answer
            && r.store == Store(later.log, Recent(later.usage, now' - WINDOW))
  {
    var first := Ingest(codec, before, events, principal, lim, now);
    IngestExtends(codec, before, events, principal, lim, now);
    SafeIsPrincipals(codec, events, principal, lim);
    hide UniqueLog, Bound, IngestAll, RedactAll;
    RetryIsAnswered(codec, later.log, first.answer.value, principal, Used(Recent(later.usage, now' - WINDOW), principal), lim);
  }

  // ---------------------------------------------------------------- the quota over time

  /** A request to ingest at some time; the limits are fixed. */
  datatype Request = Request(events: seq<Event>, principal: string, now: real)

  /** The store and every charge ever made, pruned or not. */
  datatype Run = Run(store: Store, history: seq<Charge>)

  function Step(codec: Codec, r: Run, q: Request, lim: Limits): Run {
    var i := Ingest(codec, r.store, q.events, q.principal, lim, q.now);
    Run(i.store, if i.charge.Some? then r.history + [i.charge.value] else r.history)
  }

  function RunAll(codec: Codec, qs: seq<Request>, lim: Limits): Run {
    if qs == [] then Run(Store([], []), []) else Step(codec, RunAll(codec, qs[..|qs| - 1], lim), qs[|qs| - 1], lim)
  }

  /** The charges in the half-open window of sixty seconds that ends at t. */
  function Windowed(h: seq<Charge>, t: real): seq<Charge> {
    if h == [] then []
    else
      var init, last := Windowed(h[..|h| - 1], t), h[|h| - 1];
      if t - WINDOW < last.at <= t then init + [last] else init
  }

  /** What a principal has in the log: its events and their encoded size. */
  function Logged(codec: Codec, log: Log, principal: string): Charge {
    if log == [] then Charge(principal, 0.0, 0, 0)
    else Plus(Logged(codec, log[..|log| - 1], principal), log[|log| - 1].principal, 1, codec.size(log[|log| - 1]))
  }

  /** A sum with so many events and bytes more, if they are the same principal's. */
  function Plus(sum: Charge, principal: string, events: nat, bytes: nat): Charge {
    if sum.principal == principal then sum.(events := sum.events + events, bytes := sum.bytes + bytes) else sum
  }

  function PlusCharge(sum: Charge, c: Charge): Charge {
    Plus(sum, c.principal, c.events, c.bytes)
  }

  lemma {:induction false} RecentTwice(h: seq<Charge>, c1: real, c2: real)
    requires c1 <= c2
    ensures Recent(Recent(h, c1), c2) == Recent(h, c2)
  {
    if h != [] {
      RecentTwice(h[..|h| - 1], c1, c2);
    }
  }

  lemma {:induction false} WindowedIsRecent(h: seq<Charge>, t: real, cutoff: real, p: string)
    requires cutoff <= t - WINDOW
    ensures Used(Windowed(h, t), p).events <= Used(Recent(h, cutoff), p).events
    ensures Used(Windowed(h, t), p).bytes <= Used(Recent(h, cutoff), p).bytes
  {
    if h != [] {
      WindowedIsRecent(h[..|h| - 1], t, cutoff, p);
    }
  }

  lemma {:induction false} IngestAllCounts(
    codec: Codec, log: Log, events: seq<Event>, principal: string, used: Charge, lim: Limits, p: string)
    requires forall e :: e in events ==> e.principal == principal
    requires IngestAll(codec, log, events, principal, used, lim).Ok?
    ensures var b := IngestAll(codec, log, events, principal, used, lim).value;
            Logged(codec, b.log, p) == Plus(Logged(codec, log, p), principal, b.count, b.size) && (b.count == 0 ==> b.size == 0)
  {
    hide Logged, FindSlot, HasForeign, HasId;
    if events != [] {
      var init, e := events[..|events| - 1], events[|events| - 1];
      assert events == init + [e];
      IngestAllCounts(codec, log, init, principal, used, lim, p);
      var b := IngestAll(codec, log, init, principal, used, lim).value;
      LoggedSnoc(codec, b.log, e, p);
    }
  }

  lemma LoggedSnoc(codec: Codec, log: Log, e: Event, p: string)
    ensures Logged(codec, log + [e], p) == Plus(Logged(codec, log, p), e.principal, 1, codec.size(e))
  {
    assert (log + [e])[..|log|] == log;
  }

  /** What holds after requests whose last one came at `clock`. */
  ghost predicate RunOk(codec: Codec, r: Run, clock: real, lim: Limits) {
    && UniqueLog(r.store.log) && Bound(r.store.log)
    && (forall c :: c in r.history ==> c.at <= clock)
    && (forall cutoff :: cutoff >= clock - WINDOW ==> Recent(r.store.usage, cutoff) == Recent(r.history, cutoff))
    && (forall p :: Logged(codec, r.store.log, p) == Used(r.history, p))
    && (forall p, t :: Used(Windowed(r.history, t), p).events <= Max(0, lim.events))
    && (forall p, t :: Used(Windowed(r.history, t), p).bytes <= Max(0, lim.bytes))
  }

  lemma {:induction false} ForeignPrincipalUsed(h: seq<Charge>, p: string)
    ensures Used(h, p).principal == p
  {
    if h != [] {
      ForeignPrincipalUsed(h[..|h| - 1], p);
    }
  }

  /** A charge within the limits on top of the last window keeps every window within them. */
  lemma ChargeKeepsWindows(h: seq<Charge>, c: Charge, lim: Limits, p: string, t: real)
    requires forall x :: x in h ==> x.at <= c.at
    requires Used(Windowed(h, t), p).events <= Max(0, lim.events) && Used(Windowed(h, t), p).bytes <= Max(0, lim.bytes)
    requires c.events + Used(Recent(h, c.at - WINDOW), c.principal).events <= lim.events
    requires c.bytes + Used(Recent(h, c.at - WINDOW), c.principal).bytes <= lim.bytes
    ensures Used(Windowed(h + [c], t), p).events <= Max(0, lim.events)
    ensures Used(Windowed(h + [c], t), p).bytes <= Max(0, lim.bytes)
  {
    assert (h + [c])[..|h|] == h;
    WindowedIsRecent(h, t, if c.at <= t then c.at - WINDOW else t - WINDOW, p);
    var w := Windowed(h, t);
    assert Windowed(h + [c], t) == if t - WINDOW < c.at <= t then w + [c] else w;
    UsedSnoc(w, c, p);
    hide Recent, Windowed, Used;
  }

  lemma UsedSnoc(h: seq<Charge>, c: Charge, p: string)
    ensures Used(h + [c], p) == PlusCharge(Used(h, p), c)
  {
    assert (h + [c])[..|h|] == h;
    ForeignPrincipalUsed(h, p);
  }

  lemma RecentSnoc(h: seq<Charge>, c: Charge, cutoff: real)
    ensures Recent(h + [c], cutoff) == Recent(h, cutoff) + (if c.at <= cutoff then [] else [c])
  {
    assert (h + [c])[..|h|] == h;
  }

  /** What a step does to the usage rows and to the number of events per principal. */
  lemma StepCounts(codec: Codec, r: Run, q: Request, lim: Limits, p: string)
    ensures var i := Ingest(codec, r.store, q.events, q.principal, lim, q.now);
            var pruned := Recent(r.store.usage, q.now - WINDOW);
            && (i.charge.None? ==>
                  Logged(codec, i.store.log, p) == Logged(codec, r.store.log, p) && (i.store == r.store || i.store.usage == pruned))
            && (i.charge.Some? ==>
                  && i.charge.value.at == q.now && i.store.usage == pruned + [i.charge.value]
                  && Logged(codec, i.store.log, p) == PlusCharge(Logged(codec, r.store.log, p), i.charge.value))
  {
    hide IngestAll, Logged, Recent, Used;
    var checked := Checked(codec, q.events, q.principal, lim);
    if checked.Ok? {
      SafeIsPrincipals(codec, q.events, q.principal, lim);
      hide Checked;
      var used := Used(Recent(r.store.usage, q.now - WINDOW), q.principal);
      if IngestAll(codec, r.store.log, checked.value, q.principal, used, lim).Ok? {
        IngestAllCounts(codec, r.store.log, checked.value, q.principal, used, lim, p);
      }
    }
  }

  lemma ChargeFits(codec: Codec, s: Store, q: Request, lim: Limits)
    requires UniqueLog(s.log) && Bound(s.log)
    requires Ingest(codec, s, q.events, q.principal, lim, q.now).charge.Some?
    ensures var c := Ingest(codec, s, q.events, q.principal, lim, q.now).charge.value;
            var used := Used(Recent(s.usage, q.now - WINDOW), c.principal);
            c.events + used.events <= lim.events && c.bytes + used.bytes <= lim.bytes
  {
    hide UniqueLog, Bound, IngestAll, Recent, Used;
    var safe := Checked(codec, q.events, q.principal, lim).value;
    SafeIsPrincipals(codec, q.events, q.principal, lim);
    IngestAllExtends(codec, s.log, safe, q.principal, Used(Recent(s.usage, q.now - WINDOW), q.principal), lim);
  }

  lemma StepKeepsRunOk(codec: Codec, r: Run, q: Request, clock: real, lim: Limits)
    requires RunOk(codec, r, clock, lim) && clock <= q.now
    ensures RunOk(codec, Step(codec, r, q, lim), q.now, lim)
  {
    hide Ingest, UniqueLog, Bound, Logged, Used, Windowed, Recent;
    var r' := Step(codec, r, q, lim);
    IngestExtends(codec, r.store, q.events, q.principal, lim, q.now);
    var i := Ingest(codec, r.store, q.events, q.principal, lim, q.now);
    forall p ensures i.charge.None? ==> Logged(codec, i.store.log, p) == Logged(codec, r.store.log, p)
      ensures i.charge.Some? ==> Logged(codec, i.store.log, p) == PlusCharge(Logged(codec, r.store.log, p), i.charge.value)
    {
      StepCounts(codec, r, q, lim, p);
    }
    StepCounts(codec, r, q, lim, "");
    assert Recent(r.store.usage, q.now - WINDOW) == Recent(r.history, q.now - WINDOW);
    if i.charge.Some? {
      ChargeFits(codec, r.store, q, lim);
      ChargedRunOk(codec, r, r', i.charge.value, clock, lim);
    } else {
      UnchargedRunOk(codec, r, r', clock, q.now, lim);
    }
  }

  lemma UnchargedRunOk(codec: Codec, r: Run, r': Run, clock: real, now: real, lim: Limits)
    requires RunOk(codec, r, clock, lim) && clock <= now
    requires UniqueLog(r'.store.log) && Bound(r'.store.log)
    requires r'.history == r.history
    requires r'.store == r.store || r'.store.usage == Recent(r.history, now - WINDOW)
    requires forall p :: Logged(codec, r'.store.log, p) == Logged(codec, r.store.log, p)
    ensures RunOk(codec, r', now, lim)
  {
    hide UniqueLog, Bound, Logged, Used, Recent, Windowed;
    forall cutoff | cutoff >= now - WINDOW ensures Recent(r'.store.usage, cutoff) == Recent(r'.history, cutoff) {
      RecentTwice(r.history, now - WINDOW, cutoff);
    }
  }

  lemma ChargedRunOk(codec: Codec, r: Run, r': Run, c: Charge, clock: real, lim: Limits)
    requires RunOk(codec, r, clock, lim) && clock <= c.at
    requires UniqueLog(r'.store.log) && Bound(r'.store.log)
    requires r'.history == r.history + [c]
    requires var pruned := Recent(r.history, c.at - WINDOW);
             && r'.store.usage == pruned + [c]
             && c.events + Used(pruned, c.principal).events <= lim.events
             && c.bytes + Used(pruned, c.principal).bytes <= lim.bytes
    requires forall p :: Logged(codec, r'.store.log, p) == PlusCharge(Logged(codec, r.store.log, p), c)
    ensures RunOk(codec, r', c.at, lim)
  {
    hide UniqueLog, Bound, Logged, Used, Recent, Windowed;
    forall cutoff | cutoff >= c.at - WINDOW ensures Recent(r'.store.usage, cutoff) == Recent(r'.history, cutoff) {
      RecentTwice(r.history, c.at - WINDOW, cutoff);
      RecentSnoc(r.history, c, cutoff);
      RecentSnoc(Recent(r.history, c.at - WINDOW), c, cutoff);
    }
    forall p ensures Logged(codec, r'.store.log, p) == Used(r'.history, p) {
      UsedSnoc(r.history, c, p);
    }
    forall p, t ensures Used(Windowed(r'.history, t), p).events <= Max(0, lim.events)
      ensures Used(Windowed(r'.history, t), p).bytes <= Max(0, lim.bytes)
    {
      ChargeKeepsWindows(r.history, c, lim, p, t);
    }
  }

  /** Main result: under fixed limits and a clock that does not run backwards, no window of
      sixty seconds holds more new events or bytes of a principal than the limits allow, and
      the charges account for every event in the log and its encoded size. */
  lemma {:induction false} QuotaHoldsInEveryWindow(codec: Codec, qs: seq<Request>, lim: Limits)
    requires forall i, j | 0 <= i < j < |qs| :: qs[i].now <= qs[j].now
    ensures RunOk(codec, RunAll(codec, qs, lim), if qs == [] then 0.0 else qs[|qs| - 1].now, lim)
  {
    hide RunOk, Step;
    if qs == [] {
      EmptyRunOk(codec, 0.0, lim);
    } else {
      var init, q := qs[..|qs| - 1], qs[|qs| - 1];
      QuotaHoldsInEveryWindow(codec, init, lim);
      if init == [] {
        EmptyRunOk(codec, q.now, lim);
      }
      StepKeepsRunOk(codec, RunAll(codec, init, lim), q, if init == [] then q.now else init[|init| - 1].now, lim);
    }
  }

  lemma EmptyRunOk(codec: Codec, clock: real, lim: Limits)
    ensures RunOk(codec, Run(Store([], []), []), clock, lim)
  {
  }

  // ---------------------------------------------------------------- paging

  /** A filter on repo, node and session. */
  type Filter = Event -> bool

  function Kept(log: Log, keep: Filter): seq<Event> {
    if log == [] then []
    else
      var init := Kept(log[..|log| - 1], keep);
      if keep(log[|log| - 1]) then init + [log[|log| - 1]] else init
  }

  /** The cursors of matching events after `since`, in order. */
  function Hits(log: Log, since: nat, keep: Filter): (r: seq<nat>)
    ensures forall i | 0 <= i < |r| :: since < r[i] <= |log| && keep(log[r[i] - 1])
    ensures forall i, j | 0 <= i < j < |r| :: r[i] < r[j]
  {
    if |log| <= since then []
    else
      var init := Hits(log[..|log| - 1], since, keep);
      if keep(log[|log| - 1]) then init + [|log|] else init
  }

  datatype Page = Page(items: seq<Event>, next: Option<nat>)

  function EventsAt(log: Log, cursors: seq<nat>): seq<Event>
    requires forall i | 0 <= i < |cursors| :: 0 < cursors[i] <= |log|
  {
    seq(|cursors|, i requires 0 <= i < |cursors| => log[cursors[i] - 1])
  }

  /** read: one row more than the limit is fetched to see whether there is a next page. */
  function Read(log: Log, since: nat, keep: Filter, limit: nat): Page
    requires limit >= 1
  {
    var hits := Hits(log, since, keep);
    if |hits| > limit then Page(EventsAt(log, hits[..limit]), Some(hits[limit - 1]))
    else Page(EventsAt(log, hits), None)
  }

  lemma {:induction false} HitsAreKept(log: Log, since: nat, keep: Filter)
    requires since <= |log|
    ensures Kept(log[..since], keep) + EventsAt(log, Hits(log, since, keep)) == Kept(log, keep)
  {
    if |log| == since {
      assert log[..since] == log;
    } else {
      var init := log[..|log| - 1];
      HitsAreKept(init, since, keep);
      assert init[..since] == log[..since];
      var before, last := Hits(init, since, keep), log[|log| - 1];
      var kept := Kept(log[..since], keep);
      assert Kept(log, keep) == if keep(last) then Kept(init, keep) + [last] else Kept(init, keep);
      assert Hits(log, since, keep) == if keep(last) then before + [|log|] else before;
      hide Kept, Hits;
      EventsAtSnoc(log, before);
      assert (kept + EventsAt(init, before)) + [last] == kept + (EventsAt(init, before) + [last]);
    }
  }

  lemma EventsAtSnoc(log: Log, cursors: seq<nat>)
    requires log != [] && forall i | 0 <= i < |cursors| :: 0 < cursors[i] < |log|
    ensures EventsAt(log, cursors) == EventsAt(log[..|log| - 1], cursors)
    ensures EventsAt(log, cursors + [|log|]) == EventsAt(log, cursors) + [log[|log| - 1]]
  {
  }

  /** The hits up to the n-th are the hits of the log up to it. */
  lemma {:induction false} HitsPrefix(log: Log, since: nat, keep: Filter, n: nat)
    requires n < |Hits(log, since, keep)|
    ensures var c := Hits(log, since, keep)[n]; Hits(log[..c], since, keep) == Hits(log, since, keep)[..n + 1]
  {
    var init := log[..|log| - 1];
    var before := Hits(init, since, keep);
    if n < |before| {
      HitsPrefix(init, since, keep, n);
      assert init[..before[n]] == log[..before[n]];
    } else {
      assert log[..|log|] == log;
    }
  }

  lemma PageWithNext(log: Log, since: nat, keep: Filter, limit: nat)
    requires limit >= 1 && since <= |log| && |Hits(log, since, keep)| > limit
    ensures var c := Hits(log, since, keep)[limit - 1];
            && since < c <= |log|
            && Kept(log[..since], keep) + EventsAt(log, Hits(log, since, keep)[..limit]) == Kept(log[..c], keep)
  {
    HitsPrefix(log, since, keep, limit - 1);
    hide Kept;
    var hits := Hits(log, since, keep);
    var c := hits[limit - 1];
    HitsAreKept(log[..c], since, keep);
    hide Hits;
    assert log[..c][..since] == log[..since];
    assert EventsAt(log[..c], hits[..limit]) == EventsAt(log, hits[..limit]);
  }

  /** A page is what is kept of the log between its cursor and the next. */
  lemma PageIsSlice(log: Log, since: nat, keep: Filter, limit: nat)
    requires limit >= 1 && since <= |log|
    ensures var page := Read(log, since, keep, limit);
            if page.next.None? then Kept(log[..since], keep) + page.items == Kept(log, keep)
            else since < page.next.value <= |log|
                 && Kept(log[..since], keep) + page.items == Kept(log[..page.next.value], keep)
  {
    hide Kept, Hits, EventsAt;
    if |Hits(log, since, keep)| > limit {
      PageWithNext(log, since, keep, limit);
    } else {
      HitsAreKept(log, since, keep);
    }
  }

  /** Main result: a page holds as many matching events as there are behind its cursor, up to its
      limit, and names a next cursor exactly when there are more. */
  lemma PageHoldsTheLimit(log: Log, since: nat, keep: Filter, limit: nat)
    requires limit >= 1
    ensures var page := Read(log, since, keep, limit);
            var matches := if since <= |log| then |Kept(log, keep)| - |Kept(log[..since], keep)| else 0;
            |page.items| == Min(limit, matches) && (page.next.Some? <==> matches > limit)
  {
    hide Kept;
    if since <= |log| {
      HitsAreKept(log, since, keep);
    } else {
      NothingBehind(log, since, keep);
    }
    hide Hits;
  }

  lemma {:induction false} NothingBehind(log: Log, since: nat, keep: Filter)
    requires since >= |log|
    ensures Hits(log, since, keep) == []
  {
    if log != [] {
      NothingBehind(log[..|log| - 1], since, keep);
    }
  }

  /** Follow next cursors from 0, the k-th page read when the log is logs[k]; the cursor is
      None once a page had no next. */
  function Follow(logs: seq<Log>, keep: Filter, limit: nat): (seq<Event>, Option<nat>)
    requires limit >= 1
  {
    if logs == [] then ([], Some(0))
    else
      var (events, cursor) := Follow(logs[..|logs| - 1], keep, limit);
      match cursor
      case None => (events, None)
      case Some(since) =>
        var page := Read(logs[|logs| - 1], since, keep, limit);
        (events + page.items, page.next)
  }

  /** Main result: pages followed from cursor 0 with a fixed filter, while the log grows
      between them, contain every matching event exactly once in cursor order: together
      they are the filtered log at the time of the last page. */
  lemma {:induction false} PagesAreTheFilteredLog(logs: seq<Log>, keep: Filter, limit: nat)
    requires limit >= 1 && |logs| > 0
    requires forall i | 0 < i < |logs| :: logs[i - 1] <= logs[i]
    requires Follow(logs[..|logs| - 1], keep, limit).1.Some?
    ensures var (events, cursor) := Follow(logs, keep, limit);
            match cursor
            case None => events == Kept(logs[|logs| - 1], keep)
            case Some(c) => c <= |logs[|logs| - 1]| && events == Kept(logs[|logs| - 1][..c], keep)
  {
    var init, log := logs[..|logs| - 1], logs[|logs| - 1];
    if init == [] {
      assert log[..0] == [];
      PageIsSlice(log, 0, keep, limit);
    } else {
      var before := init[|init| - 1];
      assert before <= log by { assert logs[|logs| - 2] == before; }
      if Follow(init[..|init| - 1], keep, limit).1.Some? {
        PagesAreTheFilteredLog(init, keep, limit);
        var since := Follow(init, keep, limit).1.value;
        assert before[..since] == log[..since];
        PageIsSlice(log, since, keep, limit);
      }
    }
  }
}
