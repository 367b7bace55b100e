/** Claims and claim conflicts of the shared context (backend/activity_context.py): a fold over
    the chronological events, keyed by repository and issue or session. */
module ContextClaims {
  import opened Common
  import Text
  import Log = ActivityLog
  import Order = ContextOrder

  /** What the fold reads of an event: its holder and its session as the payload names them, and
      when a claim expires. */
  datatype Event = Event(
    source: string, kind: string, ts: real, repo: string, issue: Option<nat>, sessionId: string,
    session: string, holder: string, expires: Option<real>, token: Option<string>)

  datatype Subject = Issue(number: int) | Session(id: string)

  type Target = (string, Subject)

  datatype Claim = Claim(repo: string, issue: Option<nat>, holder: string, session: string, token: Option<string>,
                         claimedAt: real, expires: Option<real>)

  /** A claim conflict: between which sessions and agents, and where. */
  datatype Conflict = Conflict(repo: string, issue: Option<nat>, sessions: set<string>, agents: set<string>, at: real)

  /** Claims by target, conflicts by identifier, and the time of the newest event looked at. */
  datatype State = State(active: map<Target, Claim>, conflicts: map<string, Conflict>, newest: Option<real>)

  const START := State(map[], map[], None)

  const ACQUIRE_KINDS := {"claim", "claimed", "claim_acquired"}
  const RELEASE_KINDS := {"release", "claim_released", "expiry", "claim_expired"}

  predicate Acquires(kind: string) {
    kind in ACQUIRE_KINDS
  }

  predicate Releases(kind: string) {
    kind in RELEASE_KINDS
  }

  function TargetOf(e: Event): Target {
    (Text.Lower(e.repo), if e.issue.Some? then Issue(e.issue.value) else Session(e.sessionId))
  }

  /** Whether the fold looks at the event at all. */
  predicate Relevant(e: Event) {
    e.source == "job_board" || Acquires(e.kind) || Releases(e.kind) || e.kind == "conflict"
  }

  predicate Lapsed(e: Event, now: real) {
    e.expires.Some? && e.expires.value <= now
  }

  function ClaimOf(e: Event): Claim {
    Claim(e.repo, e.issue, e.holder, e.session, e.token, e.ts, e.expires)
  }

  function ConflictId(e: Event, between: string): string {
    "claim:" + e.repo + ":" + Text.Decimal(if e.issue.Some? then e.issue.value else 0) + ":" + between
  }

  /** Both sessions, the smaller first. */
  function Pair(a: string, b: string): string {
    if Order.CompareText(a, b) <= 0 then a + ":" + b else b + ":" + a
  }

  /** A conflict that an event announces itself. */
  function Announced(conflicts: map<string, Conflict>, e: Event): map<string, Conflict> {
    conflicts[ConflictId(e, e.session) := Conflict(e.repo, e.issue, {e.session, e.sessionId}, {e.holder}, e.ts)]
  }

  /** The conflict of taking over a target that another session holds. */
  function TakenOver(conflicts: map<string, Conflict>, prev: Claim, e: Event): map<string, Conflict> {
    conflicts[ConflictId(e, Pair(prev.session, e.session)) :=
      Conflict(e.repo, e.issue, {prev.session, e.session}, {prev.holder, e.holder}, e.ts)]
  }

  function Step(s: State, e: Event, now: real): State {
    if !Relevant(e) then s
    else
      var s := s.(newest := if s.newest.None? || e.ts > s.newest.value then Some(e.ts) else s.newest);
      var target := TargetOf(e);
      if Releases(e.kind) then s.(active := s.active - {target})
      else if e.kind == "conflict" then s.(conflicts := Announced(s.conflicts, e))
      else if Acquires(e.kind) then
        if Lapsed(e, now) then s.(active := s.active - {target})
        else
          var rival := target in s.active && s.active[target].session != e.session;
          State(s.active[target := ClaimOf(e)],
                if rival then TakenOver(s.conflicts, s.active[target], e) else s.conflicts,
                s.newest)
      else s
  }

  function Derive(events: seq<Event>, now: real): State {
    if events == [] then START else Step(Derive(events[..|events| - 1], now), events[|events| - 1], now)
  }

  method DeriveClaims(chron: seq<Event>, now: real) returns (s: State)
    ensures s == Derive(chron, now)
  {
    var active: map<Target, Claim>, conflicts: map<string, Conflict>, newest: Option<real> := map[], map[], None;
    for i := 0 to |chron|
      invariant State(active, conflicts, newest) == Derive(chron[..i], now)
    {
      hide Acquires, Releases, Text.Lower;
      assert chron[..i + 1][..i] == chron[..i];
      var e := chron[i];
      if e.source != "job_board" && !Acquires(e.kind) && !Releases(e.kind) && e.kind != "conflict" {
        continue;
      }
      newest := if newest.None? || e.ts > newest.value then Some(e.ts) else newest;
      var target := TargetOf(e);
      if Releases(e.kind) {
        active := active - {target};
      } else if e.kind == "conflict" {
        conflicts := conflicts[ConflictId(e, e.session) :=
          Conflict(e.repo, e.issue, {e.session, e.sessionId}, {e.holder}, e.ts)];
      } else if Acquires(e.kind) {
        if Lapsed(e, now) {
          active := active - {target};
          continue;
        }
        if target in active && active[target].session != e.session {
          var prev := active[target];
          conflicts := conflicts[ConflictId(e, Pair(prev.session, e.session)) :=
            Conflict(e.repo, e.issue, {prev.session, e.session}, {prev.holder, e.holder}, e.ts)];
        }
        active := active[target := ClaimOf(e)];
      }
    }
    assert chron[..|chron|] == chron;
    return State(active, conflicts, newest);
  }

  // ---------------------------------------------------------------- what is claimed

  predicate Decides(e: Event, target: Target) {
    TargetOf(e) == target && (Acquires(e.kind) || Releases(e.kind))
  }

  /** The last event that acquires or releases a target. */
  function LastDecision(events: seq<Event>, target: Target): Option<Event> {
    if events == [] then None
    else if Decides(events[|events| - 1], target) then Some(events[|events| - 1])
    else LastDecision(events[..|events| - 1], target)
  }

  lemma KindsDiffer(kind: string)
    ensures !(Acquires(kind) && Releases(kind))
    ensures kind == "conflict" ==> !Acquires(kind) && !Releases(kind)
  {
    if Acquires(kind) {
      assert kind[0] == 'c' && (|kind| <= 7 || kind[7] == 'c');
    }
    assert "conflict"[1] == 'o';
    assert "claim_released"[6] == 'r' && "claim_expired"[6] == 'e' && "claim_acquired"[6] == 'a';
  }

  /** Main result: a target is claimed exactly when the last event that acquires or releases it
      acquires it and has not lapsed, and the claim is that event's: an acquisition that has
      lapsed ends whatever claim there was. */
  lemma {:induction false} ClaimedIffLastAcquires(events: seq<Event>, now: real, target: Target)
    ensures var last := LastDecision(events, target);
            var active := Derive(events, now).active;
            && (target in active <==> last.Some? && Acquires(last.value.kind) && !Lapsed(last.value, now))
            && (target in active ==> active[target] == ClaimOf(last.value))
  {
    if events != [] {
      var init, e := events[..|events| - 1], events[|events| - 1];
      ClaimedIffLastAcquires(init, now, target);
      KindsDiffer(e.kind);
      hide Acquires, Releases, TargetOf;
    }
  }

  /** Every claim that is listed is in force. */
  lemma {:induction false} ClaimsAreInForce(events: seq<Event>, now: real, target: Target)
    requires target in Derive(events, now).active
    ensures var c := Derive(events, now).active[target];
            && (c.expires.Some? ==> c.expires.value > now)
            && target.0 == Text.Lower(c.repo) && (c.issue.Some? ==> target.1 == Issue(c.issue.value))
  {
    ClaimedIffLastAcquires(events, now, target);
    LastDecides(events, target);
  }

  lemma {:induction false} LastDecides(events: seq<Event>, target: Target)
    ensures LastDecision(events, target).Some? ==> Decides(LastDecision(events, target).value, target)
  {
    if events != [] {
      LastDecides(events[..|events| - 1], target);
    }
  }

  /** Main result: a session that takes over a target another session holds is reported with both
      sessions and both agents, and no later event withdraws the report. */
  lemma {:induction false} TakeoverIsReported(before: seq<Event>, e: Event, after: seq<Event>, now: real)
    requires Acquires(e.kind) && !Lapsed(e, now)
    requires var held := Derive(before, now).active;
             TargetOf(e) in held && held[TargetOf(e)].session != e.session
    ensures var rival := Derive(before, now).active[TargetOf(e)];
            var id := ConflictId(e, Pair(rival.session, e.session));
            var conflicts := Derive(before + [e] + after, now).conflicts;
            && id in conflicts
            && (after == [] ==> conflicts[id] == Conflict(e.repo, e.issue, {rival.session, e.session}, {rival.holder, e.holder}, e.ts))
    decreases |after|
  {
    hide ConflictId, Pair;
    if after == [] {
      assert before + [e] + after == before + [e];
      assert (before + [e])[..|before|] == before;
      KindsDiffer(e.kind);
      hide Acquires, Releases, TargetOf;
    } else {
      var init := after[..|after| - 1];
      var all := before + [e] + after;
      assert all[..|all| - 1] == before + [e] + init;
      TakeoverIsReported(before, e, init, now);
      hide Acquires, Releases, TargetOf;
    }
  }

  // ---------------------------------------------------------------- identifiers

  /** Both sessions of a conflict are named, the smaller first, whoever took over from whom. */
  lemma PairIs(a: string, b: string)
    ensures Pair(a, b) == Pair(b, a)
    ensures Order.CompareText(a, b) < 0 ==> Pair(a, b) == a + ":" + b
  {
    Order.CompareTextFacts(a, b);
  }

  /** Conflicts of one repository between the same sessions are told apart by their issues. */
  lemma IssuesAreToldApart(a: Event, b: Event, between: string)
    requires a.repo == b.repo && ConflictId(a, between) == ConflictId(b, between)
    ensures (if a.issue.Some? then a.issue.value else 0) == (if b.issue.Some? then b.issue.value else 0)
  {
    var n, m := if a.issue.Some? then a.issue.value else 0, if b.issue.Some? then b.issue.value else 0;
    var head := "claim:" + a.repo + ":";
    var x, y := ConflictId(a, between), ConflictId(b, between);
    assert |x| == |head| + |Text.Decimal(n)| + 1 + |between| && |y| == |head| + |Text.Decimal(m)| + 1 + |between|;
    assert x[|head|..|head| + |Text.Decimal(n)|] == Text.Decimal(n);
    assert y[|head|..|head| + |Text.Decimal(m)|] == Text.Decimal(m);
    Text.DecimalIs(n);
    Text.DecimalIs(m);
  }

  // ---------------------------------------------------------------- what is reported

  /** The conflict that the i-th event reports, by the events before it: one that it announces, or that
      it takes over a target which another session still holds. */
  function ReportAt(events: seq<Event>, i: nat, now: real): Option<(string, Conflict)>
    requires i < |events|
  {
    var e := events[i];
    var held := LastDecision(events[..i], TargetOf(e));
    if e.kind == "conflict" then
      Some((ConflictId(e, e.session), Conflict(e.repo, e.issue, {e.session, e.sessionId}, {e.holder}, e.ts)))
    else if Acquires(e.kind) && !Lapsed(e, now) && held.Some? && Acquires(held.value.kind) && !Lapsed(held.value, now)
            && held.value.session != e.session then
      Some((ConflictId(e, Pair(held.value.session, e.session)),
            Conflict(e.repo, e.issue, {held.value.session, e.session}, {held.value.holder, e.holder}, e.ts)))
    else None
  }

  function LastReport(events: seq<Event>, n: nat, now: real, id: string): Option<Conflict>
    requires n <= |events|
  {
    if n == 0 then None
    else
      var r := ReportAt(events, n - 1, now);
      if r.Some? && r.value.0 == id then Some(r.value.1) else LastReport(events, n - 1, now, id)
  }

  lemma {:induction false} ReportsOfPrefix(events: seq<Event>, more: seq<Event>, n: nat, now: real, id: string)
    requires n <= |events|
    ensures LastReport(events + more, n, now, id) == LastReport(events, n, now, id)
  {
    if n > 0 {
      ReportsOfPrefix(events, more, n - 1, now, id);
      assert (events + more)[..n - 1] == events[..n - 1];
    }
  }

  /** Main result: the conflicts shown are the last report under each identifier and nothing else; in
      particular a session that renews its own claim, or claims what nobody holds, is in no conflict. */
  lemma {:induction false} ConflictsAreTheReports(events: seq<Event>, now: real, id: string)
    ensures var conflicts, last := Derive(events, now).conflicts, LastReport(events, |events|, now, id);
            (id in conflicts <==> last.Some?) && (id in conflicts ==> conflicts[id] == last.value)
  {
    if events != [] {
      var n := |events| - 1;
      var init, e := events[..n], events[n];
      assert init + [e] == events;
      ConflictsAreTheReports(init, now, id);
      ReportsOfPrefix(init, [e], n, now, id);
      ClaimedIffLastAcquires(init, now, TargetOf(e));
      KindsDiffer(e.kind);
      hide Acquires, Releases, TargetOf, ConflictId, Pair, Lapsed;
    }
  }

  /** An event of the job board, or about a claim. */
  predicate AboutClaims(e: Event) {
    e.source == "job_board" || e.kind in ACQUIRE_KINDS + RELEASE_KINDS + {"conflict"}
  }

  /** The newest time is that of the latest event of the job board or about a claim. */
  lemma {:induction false} NewestIs(events: seq<Event>, now: real)
    ensures var newest := Derive(events, now).newest;
            && (newest.None? <==> forall e :: e in events ==> !AboutClaims(e))
            && (newest.Some? ==>
                  (exists e :: e in events && AboutClaims(e) && e.ts == newest.value)
                  && forall e :: e in events && AboutClaims(e) ==> e.ts <= newest.value)
  {
    if events != [] {
      var init, last := events[..|events| - 1], events[|events| - 1];
      NewestIs(init, now);
      assert events == init + [last];
      assert forall e :: e in events <==> e in init || e == last;
      assert Relevant(last) <==> AboutClaims(last);
      hide Acquires, Releases, TargetOf, ConflictId, Pair, Lapsed, Relevant, AboutClaims;
    }
  }

  // ---------------------------------------------------------------- from the store to the claims

  /** The envelope's issue and what its payload says, "" where it does not: agent, holder or
      principal, session, expiry and fencing token. */
  datatype Reader = Reader(
    issue: Log.Event -> Option<nat>, holder: Log.Event -> string, session: Log.Event -> string,
    expires: Log.Event -> Option<real>, token: Log.Event -> Option<string>)

  function Read(r: Reader, e: Log.Event): Event {
    Event(
      e.source, e.kind, e.ts, if e.repo.Some? then e.repo.value else "", r.issue(e), e.session,
      if r.session(e) != "" then r.session(e) else e.session,
      if r.holder(e) != "" then r.holder(e) else e.principal,
      r.expires(e), r.token(e))
  }

  function ReadAll(r: Reader, events: seq<Log.Event>): seq<Event> {
    seq(|events|, i requires 0 <= i < |events| => Read(r, events[i]))
  }

  /** What the context shows of the events a store returns. */
  function FromStore(r: Reader, events: seq<Log.Event>, now: real): State {
    Derive(ReadAll(r, Order.Chronological(events)), now)
  }

  /** The event acquires or releases the target: the issue of its repository, or without an issue its
      session there. */
  predicate Concerns(r: Reader, e: Log.Event, target: Target) {
    && target.0 == (if e.repo.None? then "" else Text.Lower(e.repo.value))
    && target.1 == (if r.issue(e).Some? then Issue(r.issue(e).value) else Session(e.session))
    && e.kind in {"claim", "claimed", "claim_acquired", "release", "claim_released", "expiry", "claim_expired"}
  }

  lemma ConcernsIff(r: Reader, e: Log.Event, target: Target)
    ensures Concerns(r, e, target) <==> Decides(Read(r, e), target)
  {
    assert Text.Lower("") == "";
    hide Text.Lower;
  }

  /** Of the events that concern a target, none sorts after `e`. */
  ghost predicate IsLatest(r: Reader, events: seq<Log.Event>, target: Target, e: Log.Event) {
    e in events && Concerns(r, e, target) && forall d :: d in events && Concerns(r, d, target) ==> Order.NotAfter(d, e)
  }

  /** The claim that an event makes, by its envelope and payload. */
  ghost predicate Makes(r: Reader, e: Log.Event, c: Claim) {
    && c.repo == (if e.repo.Some? then e.repo.value else "") && c.issue == r.issue(e) && c.claimedAt == e.ts
    && (if r.holder(e) == "" then c.holder == e.principal else c.holder == r.holder(e))
    && (if r.session(e) == "" then c.session == e.session else c.session == r.session(e))
    && c.expires == r.expires(e) && c.token == r.token(e)
  }

  /** In a sorted list the last decision is the latest. */
  lemma {:induction false} LastIsLatest(r: Reader, events: seq<Log.Event>, target: Target)
    requires Order.Sorted(events)
    ensures var last := LastDecision(ReadAll(r, events), target);
            && (last.None? ==> forall d :: d in events ==> !Concerns(r, d, target))
            && (last.Some? ==> exists e :: Read(r, e) == last.value && IsLatest(r, events, target, e))
  {
    hide Decides, Read, Concerns, Order.NotAfter;
    if events != [] {
      var init, e := events[..|events| - 1], events[|events| - 1];
      Order.NotAfterIsTotal(e, e);
      ConcernsIff(r, e, target);
      assert forall d :: d in events <==> d in init || d == e by {
        assert events == init + [e];
      }
      assert forall d :: d in events ==> Order.NotAfter(d, e);
      if Decides(Read(r, e), target) {
        assert IsLatest(r, events, target, e);
      } else {
        LastIsLatest(r, init, target);
        assert ReadAll(r, events)[..|init|] == ReadAll(r, init);
        if LastDecision(ReadAll(r, init), target).Some? {
          var x :| Read(r, x) == LastDecision(ReadAll(r, init), target).value && IsLatest(r, init, target, x);
          assert IsLatest(r, events, target, x);
        }
      }
    }
  }

  /** Main result: whatever order the store returns the events in, a target is claimed exactly when
      the latest of the events that acquire or release it, by time, number and identifier, acquires
      it and has not expired, and then the claim is what that event says. */
  lemma ClaimedIffLatestAcquires(r: Reader, events: seq<Log.Event>, now: real, target: Target)
    requires Log.UniqueLog(events)
    ensures var active := FromStore(r, events, now).active;
            && (target in active <==>
                exists e :: IsLatest(r, events, target, e) && e.kind in {"claim", "claimed", "claim_acquired"}
                            && (r.expires(e).None? || r.expires(e).value > now))
            && forall e :: target in active && IsLatest(r, events, target, e) ==> Makes(r, e, active[target])
  {
    hide *;
    var chron := Order.Chronological(events);
    SameLatest(r, events, target);
    LastIsLatest(r, chron, target);
    ClaimedIffLastAcquires(ReadAll(r, chron), now, target);
    forall e
      ensures Makes(r, e, ClaimOf(Read(r, e)))
      ensures Acquires(Read(r, e).kind) && !Lapsed(Read(r, e), now)
              <==> e.kind in {"claim", "claimed", "claim_acquired"} && (r.expires(e).None? || r.expires(e).value > now)
    {
      ReadSays(r, e, now);
    }
    FromStoreIs(r, events, now);
    var last := LastDecision(ReadAll(r, chron), target);
    if last.None? {
      forall e ensures !IsLatest(r, events, target, e) {
        LatestConcerns(r, events, target, e);
      }
    } else {
      var e :| Read(r, e) == last.value && IsLatest(r, chron, target, e);
      assert IsLatest(r, events, target, e);
    }
  }

  lemma LatestConcerns(r: Reader, events: seq<Log.Event>, target: Target, e: Log.Event)
    ensures IsLatest(r, events, target, e) ==> e in events && Concerns(r, e, target)
  {
    hide Concerns, Order.NotAfter;
  }

  lemma FromStoreIs(r: Reader, events: seq<Log.Event>, now: real)
    ensures FromStore(r, events, now) == Derive(ReadAll(r, Order.Chronological(events)), now)
  {
  }

  lemma ReadSays(r: Reader, e: Log.Event, now: real)
    ensures Makes(r, e, ClaimOf(Read(r, e)))
    ensures Acquires(Read(r, e).kind) && !Lapsed(Read(r, e), now)
            <==> e.kind in {"claim", "claimed", "claim_acquired"} && (r.expires(e).None? || r.expires(e).value > now)
  {
  }

  /** Sorting changes nothing about which event is the latest, and there is only one. */
  lemma SameLatest(r: Reader, events: seq<Log.Event>, target: Target)
    requires Log.UniqueLog(events)
    ensures Order.Sorted(Order.Chronological(events))
    ensures forall e :: e in Order.Chronological(events) <==> e in events
    ensures forall e :: IsLatest(r, Order.Chronological(events), target, e) <==> IsLatest(r, events, target, e)
    ensures forall a, b :: IsLatest(r, events, target, a) && IsLatest(r, events, target, b) ==> a == b
  {
    var chron := Order.Chronological(events);
    Order.ChronologicalSorts(events);
    assert forall e :: e in chron <==> e in multiset(chron);
    assert forall e :: e in events <==> e in multiset(events);
    hide Concerns, Order.NotAfter, Order.Chronological, Order.Sorted;
    forall a, b | IsLatest(r, events, target, a) && IsLatest(r, events, target, b) ensures a == b {
      Order.NotAfterIsTotal(a, b);
      Order.SameId(events, a, b);
    }
  }

  /** Claims and conflicts do not depend on the order the store returns the events in. */
  lemma StoreOrderDoesNotMatter(r: Reader, a: seq<Log.Event>, b: seq<Log.Event>, now: real)
    requires multiset(a) == multiset(b) && Log.UniqueLog(a)
    ensures FromStore(r, a, now) == FromStore(r, b, now)
  {
    Order.StoreOrderDoesNotMatter(a, b);
  }
}
