/** The sessions projection of the activity log (backend/activity_sessions.py): the latest event
    of each session, and the status derived from it. */
module Sessions {
  import opened Common
  import opened ActivityLog

  type Key = (string, string)

  function KeyOf(e: Event): Key {
    (e.source, e.session)
  }

  /** Greater in (ts, seq). */
  predicate Newer(a: Event, b: Event) {
    a.ts > b.ts || (a.ts == b.ts && a.seqNo > b.seqNo)
  }

  function Fold(latest: map<Key, Event>, e: Event): map<Key, Event> {
    if KeyOf(e) !in latest || Newer(e, latest[KeyOf(e)]) then latest[KeyOf(e) := e] else latest
  }

  function Latest(events: seq<Event>): map<Key, Event> {
    if events == [] then map[] else Fold(Latest(events[..|events| - 1]), events[|events| - 1])
  }

  method GroupLatest(events: seq<Event>) returns (latest: map<Key, Event>)
    ensures latest == Latest(events)
  {
    latest := map[];
    for i := 0 to |events|
      invariant latest == Latest(events[..i])
    {
      assert events[..i + 1][..i] == events[..i];
      var key := KeyOf(events[i]);
      if key !in latest || Newer(events[i], latest[key]) {
        latest := latest[key := events[i]];
      }
    }
    assert events[..|events|] == events;
  }

  predicate HasSession(events: seq<Event>, k: Key) {
    exists e :: e in events && KeyOf(e) == k
  }

  /** One of a session's events that no other of its events is newer than. */
  predicate IsLatest(events: seq<Event>, k: Key, x: Event) {
    x in events && KeyOf(x) == k && forall e :: e in events && KeyOf(e) == k ==> !Newer(e, x)
  }

  /** The projection holds exactly the sessions with an event, each with a latest one. */
  lemma {:induction false} ProjectionHoldsTheLatest(events: seq<Event>, k: Key)
    ensures k in Latest(events) <==> HasSession(events, k)
    ensures k in Latest(events) ==> IsLatest(events, k, Latest(events)[k])
  {
    if events != [] {
      var init, e := events[..|events| - 1], events[|events| - 1];
      ProjectionHoldsTheLatest(init, k);
      assert forall x :: x in events <==> x in init || x == e;
    }
  }

  /** Main result: over events with unique slots, as the store keeps them, the projection does
      not depend on the order they come in. */
  lemma OrderDoesNotMatter(a: seq<Event>, b: seq<Event>)
    requires multiset(a) == multiset(b) && UniqueLog(a)
    ensures Latest(a) == Latest(b)
  {
    SameEvents(a, b);
    forall k: Key
      ensures k in Latest(a) <==> k in Latest(b)
      ensures k in Latest(a) && k in Latest(b) ==> Latest(a)[k] == Latest(b)[k]
    {
      SessionIsTheSame(a, b, k);
    }
  }

  lemma SameEvents(a: seq<Event>, b: seq<Event>)
    requires multiset(a) == multiset(b)
    ensures forall e :: e in a <==> e in b
  {
    assert forall e :: e in a <==> e in multiset(a);
    assert forall e :: e in b <==> e in multiset(b);
  }

  lemma SessionIsTheSame(a: seq<Event>, b: seq<Event>, k: Key)
    requires UniqueLog(a) && forall e :: e in a <==> e in b
    ensures k in Latest(a) <==> k in Latest(b)
    ensures k in Latest(a) && k in Latest(b) ==> Latest(a)[k] == Latest(b)[k]
  {
    hide UniqueLog, Latest;
    ProjectionHoldsTheLatest(a, k);
    ProjectionHoldsTheLatest(b, k);
    if k in Latest(a) && k in Latest(b) {
      SameMoment(a, Latest(a)[k], Latest(b)[k]);
    }
  }

  /** Two events of a session that are equally new are the same event. */
  lemma SameMoment(events: seq<Event>, x: Event, y: Event)
    requires UniqueLog(events) && x in events && y in events && KeyOf(x) == KeyOf(y) && !Newer(x, y) && !Newer(y, x)
    ensures x == y
  {
    var i :| 0 <= i < |events| && events[i] == x;
    var j :| 0 <= j < |events| && events[j] == y;
    if i != j {
      assert SameSlot(x, y);
    }
  }

  /** Main result: more events only move a session's latest event upward, and events that are
      not newer leave it as it is. */
  lemma {:induction false} LatestOnlyMovesUp(events: seq<Event>, more: seq<Event>, k: Key)
    requires k in Latest(events)
    ensures k in Latest(events + more) && !Newer(Latest(events)[k], Latest(events + more)[k])
    ensures (forall e :: e in more && KeyOf(e) == k ==> !Newer(e, Latest(events)[k])) ==>
              Latest(events + more)[k] == Latest(events)[k]
  {
    if more == [] {
      assert events + more == events;
    } else {
      var init, e := more[..|more| - 1], more[|more| - 1];
      assert forall x :: x in init ==> x in more;
      assert (events + more)[..|events + more| - 1] == events + init;
      LatestOnlyMovesUp(events, init, k);
      ProjectionHoldsTheLatest(events + init, k);
      Unfold(events + more);
      hide Latest;
    }
  }

  lemma Unfold(events: seq<Event>)
    requires events != []
    ensures Latest(events) == Fold(Latest(events[..|events| - 1]), events[|events| - 1])
  {
  }

  // ---------------------------------------------------------------- status

  datatype Status = Live | Idle | Stale | Ended | Uncaptured

  const LIVE_WINDOW := 90.0
  const IDLE_WINDOW := 900.0

  function TerminalKinds(source: string): set<string> {
    if source == "staff_run" then {"exit", "cancel", "failed"}
    else if source == "coordination" then {"presence_release"}
    else if source == "job_board" then {"release", "expiry"}
    else if source == "checkin" then {"done"}
    else if source == "recorder" then {"session_end", "exit"}
    else {}
  }

  function StatusOf(e: Event, now: real): Status {
    var age := if now - e.ts < 0.0 then 0.0 else now - e.ts;
    if e.kind in TerminalKinds(e.source) then Ended
    else if e.source == "recorder" && e.kind == "uncaptured_process" then if age <= IDLE_WINDOW then Uncaptured else Stale
    else if age <= LIVE_WINDOW then Live
    else if age <= IDLE_WINDOW then Idle
    else Stale
  }

  /** Which kinds of event end a session, by its source. */
  const ENDINGS: set<(string, string)> := {
    ("staff_run", "exit"), ("staff_run", "cancel"), ("staff_run", "failed"), ("coordination", "presence_release"),
    ("job_board", "release"), ("job_board", "expiry"), ("checkin", "done"), ("recorder", "session_end"), ("recorder", "exit")}

  lemma EndingsAre(source: string, kind: string)
    ensures kind in TerminalKinds(source) <==> (source, kind) in ENDINGS
  {
    assert "staff_run"[0] == 's' && "coordination"[0] == 'c' && "job_board"[0] == 'j' && "checkin"[0] == 'c' && "recorder"[0] == 'r';
    assert "coordination"[1] == 'o' && "checkin"[1] == 'h';
  }

  /** Main result: the status of a session, by what its latest event is and how old. An ending ends it;
      an uncaptured process is that for fifteen minutes; anything else is live for ninety seconds,
      idle up to fifteen minutes and stale after that. */
  lemma StatusIs(events: seq<Event>, k: Key, now: real)
    requires HasSession(events, k)
    ensures k in Latest(events)
    ensures var e := Latest(events)[k];
            var status, age := StatusOf(e, now), now - e.ts;
            var ended, uncaptured := (e.source, e.kind) in ENDINGS, e.source == "recorder" && e.kind == "uncaptured_process";
            && (status.Ended? <==> ended)
            && (status.Uncaptured? <==> !ended && uncaptured && age <= 900.0)
            && (status.Live? <==> !ended && !uncaptured && age <= 90.0)
            && (status.Idle? <==> !ended && !uncaptured && 90.0 < age <= 900.0)
            && (status.Stale? <==> !ended && age > 900.0)
  {
    ProjectionHoldsTheLatest(events, k);
    EndingsAre(Latest(events)[k].source, Latest(events)[k].kind);
    hide Latest, TerminalKinds;
  }

  /** How far a session has faded. */
  function Fading(s: Status): nat {
    match s
    case Live => 0
    case Uncaptured => 1
    case Idle => 1
    case Stale => 2
    case Ended => 3
  }

  /** Main result: without a new event a session only fades with time and never ends; an ended
      session is not revived by time or by events that are not newer. */
  lemma TimeOnlyFades(events: seq<Event>, late: seq<Event>, k: Key, now: real, later: real)
    requires k in Latest(events) && now <= later
    requires forall e :: e in late && KeyOf(e) == k ==> !Newer(e, Latest(events)[k])
    ensures k in Latest(events + late)
    ensures var before, after := StatusOf(Latest(events)[k], now), StatusOf(Latest(events + late)[k], later);
            && Fading(before) <= Fading(after)
            && (before.Ended? <==> after.Ended?)
  {
    LatestOnlyMovesUp(events, late, k);
    hide Latest, TerminalKinds;
  }
}
