/** The append-only activity log (backend/activity.py): transactional ingest with dedupe,
    principal binding and a rolling quota, single appends, and cursor paging. An event's
    cursor is its position in the log, counted from 1. */
module ActivityLog {
  import opened Common

  datatype Event = Event(
    id: string, source: string, principal: string, node: string, session: string, seqNo: nat,
    ts: real, repo: Option<string>, kind: string, payload: string)

  type Log = seq<Event>

  /** One committed batch in the usage table. */
  datatype Charge = Charge(principal: string, at: real, events: nat, bytes: nat)

  datatype Error = BadArguments | BatchSize | BatchBytes | WrongPrincipal | NotRedactable | Foreign | Conflict | OverQuota

  /** What the log does not define itself: the encoded size and the redaction of an event. */
  datatype Codec = Codec(size: Event -> nat, redact: Event -> Option<Event>)

  datatype Limits = Limits(events: int, bytes: int)

  const MAX_BATCH_EVENTS := 100
  const MAX_BATCH_BYTES := 262144
  const WINDOW := 60.0

  predicate SameSlot(a: Event, b: Event) {
    a.source == b.source && a.session == b.session && a.seqNo == b.seqNo
  }

  function FindSlot(log: Log, e: Event): (r: Option<Event>)
    ensures r.Some? ==> r.value in log && SameSlot(r.value, e)
    ensures r.None? ==> forall x :: x in log ==> !SameSlot(x, e)
  {
    if log == [] then None
    else if SameSlot(log[0], e) then Some(log[0])
    else FindSlot(log[1..], e)
  }

  /** The session, or the source on its node, already belongs to someone else. */
  predicate HasForeign(log: Log, e: Event, principal: string) {
    exists x :: x in log && (x.session == e.session || (x.source == e.source && x.node == e.node)) && x.principal != principal
  }

  predicate HasId(log: Log, id: string) {
    exists x :: x in log && x.id == id
  }

  // ---------------------------------------------------------------- ingest

  function TotalSize(codec: Codec, events: seq<Event>): nat {
    if events == [] then 0 else TotalSize(codec, events[..|events| - 1]) + codec.size(events[|events| - 1])
  }

  /** Redaction must leave the binding identifiers alone. */
  function Redacted(codec: Codec, e: Event): Option<Event> {
    match codec.redact(e)
    case None => None
    case Some(r) =>
      if r.principal == e.principal && r.source == e.source && r.node == e.node && r.session == e.session && r.id == e.id
      then Some(r) else None
  }

  function RedactAll(codec: Codec, events: seq<Event>): (r: Option<seq<Event>>)
    ensures r.Some? ==> |r.value| == |events| && forall i | 0 <= i < |events| :: r.value[i].principal == events[i].principal
  {
    if events == [] then Some([])
    else
      var init, last := RedactAll(codec, events[..|events| - 1]), Redacted(codec, events[|events| - 1]);
      if init.None? || last.None? then None else Some(init.value + [last.value])
  }

  /** The state of the transaction: the log with the rows inserted so far, the answer so
      far, and the new events and bytes so far. */
  datatype Batch = Batch(log: Log, answer: seq<Event>, count: nat, size: nat)

  function IngestOne(codec: Codec, b: Batch, e: Event, principal: string, used: Charge, lim: Limits): Result<Batch, Error> {
    if HasForeign(b.log, e, principal) then Err(Foreign)
    else
      match FindSlot(b.log, e)
      case Some(previous) =>
        if previous != e then Err(Conflict) else Ok(b.(answer := b.answer + [previous]))
      case None =>
        if b.count + 1 + used.events > lim.events || b.size + codec.size(e) + used.bytes > lim.bytes then Err(OverQuota)
        else if HasId(b.log, e.id) then Err(Conflict)
        else Ok(Batch(b.log + [e], b.answer + [e], b.count + 1, b.size + codec.size(e)))
  }

  function IngestAll(codec: Codec, log: Log, events: seq<Event>, principal: string, used: Charge, lim: Limits)
    : Result<Batch, Error>
  {
    if events == [] then Ok(Batch(log, [], 0, 0))
    else
      match IngestAll(codec, log, events[..|events| - 1], principal, used, lim)
      case Err(x) => Err(x)
      case Ok(b) => IngestOne(codec, b, events[|events| - 1], principal, used, lim)
  }

  /** The usage rows younger than the window. */
  function Recent(usage: seq<Charge>, cutoff: real): seq<Charge> {
    if usage == [] then []
    else
      var init := Recent(usage[..|usage| - 1], cutoff);
      if usage[|usage| - 1].at <= cutoff then init else init + [usage[|usage| - 1]]
  }

  /** What a principal used: the sums over its usage rows. */
  function Used(usage: seq<Charge>, principal: string): Charge {
    if usage == [] then Charge(principal, 0.0, 0, 0)
    else
      var init, last := Used(usage[..|usage| - 1], principal), usage[|usage| - 1];
      if last.principal == principal then init.(events := init.events + last.events, bytes := init.bytes + last.bytes)
      else init
  }

  datatype Store = Store(log: Log, usage: seq<Charge>)

  /** The store afterwards, the answer, and the usage row the call committed. */
  datatype Ingested = Ingested(store: Store, answer: Result<seq<Event>, Error>, charge: Option<Charge>)

  function Checked(codec: Codec, events: seq<Event>, principal: string, lim: Limits): Result<seq<Event>, Error> {
    if principal == "" || lim.events < 1 || lim.bytes < 1 then Err(BadArguments)
    else if events == [] || |events| > MAX_BATCH_EVENTS then Err(BatchSize)
    else if TotalSize(codec, events) > MAX_BATCH_BYTES then Err(BatchBytes)
    else if exists e :: e in events && e.principal != principal then Err(WrongPrincipal)
    else
      match RedactAll(codec, events)
      case None => Err(NotRedactable)
      case Some(safe) => Ok(safe)
  }

  /** ingest: check, then one transaction that commits everything or nothing. */
  function Ingest(codec: Codec, s: Store, events: seq<Event>, principal: string, lim: Limits, now: real): Ingested {
    match Checked(codec, events, principal, lim)
    case Err(x) => Ingested(s, Err(x), None)
    case Ok(safe) =>
      var usage := Recent(s.usage, now - WINDOW);
      match IngestAll(codec, s.log, safe, principal, Used(usage, principal), lim)
      case Err(x) => Ingested(s, Err(x), None)
      case Ok(b) =>
        if b.count > 0 then
          var charge := Charge(principal, now, b.count, b.size);
          Ingested(Store(b.log, usage + [charge]), Ok(b.answer), Some(charge))
        else Ingested(Store(b.log, usage), Ok(b.answer), None)
  }

  /** append: an identical retry returns the stored event. */
  function Append(log: Log, e: Event): (Log, Result<Event, Error>) {
    match FindSlot(log, e)
    case Some(previous) => if previous == e then (log, Ok(previous)) else (log, Err(Conflict))
    case None => if HasId(log, e.id) then (log, Err(Conflict)) else (log + [e], Ok(e))
  }

  class ActivityStore {
    var log: Log
    var usage: seq<Charge>

    constructor ()
      ensures View() == Store([], [])
    {
      log, usage := [], [];
    }

    ghost function View(): Store
      reads this
    {
      Store(log, usage)
    }

    method IngestBatch(codec: Codec, events: seq<Event>, principal: string, lim: Limits, now: real)
      returns (r: Result<seq<Event>, Error>)
      modifies this
      ensures View() == Ingest(codec, old(View()), events, principal, lim, now).store
      ensures r == Ingest(codec, old(View()), events, principal, lim, now).answer
    {
      var checked := Checked(codec, events, principal, lim);
      if checked.Err? {
        return Err(checked.error);
      }
      var safe := checked.value;
      // BEGIN: the tables as they are restored by a rollback.
      var savedLog, savedUsage := log, usage;
      usage := Recent(usage, now - WINDOW);
      var used := Used(usage, principal);
      var count, size, answer := 0, 0, [];
      for i := 0 to |safe|
        invariant usage == Recent(savedUsage, now - WINDOW) && savedLog == old(log) && savedUsage == old(usage)
        invariant IngestAll(codec, savedLog, safe[..i], principal, used, lim) == Ok(Batch(log, answer, count, size))
      {
        assert safe[..i + 1][..i] == safe[..i];
        var e := safe[i];
        var step := IngestOne(codec, Batch(log, answer, count, size), e, principal, used, lim);
        if step.Err? {
          IngestAllFails(codec, savedLog, safe, i + 1, principal, used, lim);
          log, usage := savedLog, savedUsage;
          return Err(step.error);
        }
        log, answer, count, size := step.value.log, step.value.answer, step.value.count, step.value.size;
      }
      assert safe[..|safe|] == safe;
      if count > 0 {
        usage := usage + [Charge(principal, now, count, size)];
      }
      return Ok(answer);
    }

    method AppendEvent(e: Event) returns (r: Result<Event, Error>)
      modifies this`log
      ensures (log, r) == Append(old(log), e)
    {
      var previous := FindSlot(log, e);
      if previous.Some? {
        return if previous.value == e then Ok(previous.value) else Err(Conflict);
      }
      if exists i | 0 <= i < |log| :: log[i].id == e.id {
        return Err(Conflict);
      }
      log := log + [e];
      return Ok(e);
    }
  }

  /** A batch that fails on a prefix fails. */
  lemma {:induction false} IngestAllFails(
    codec: Codec, log: Log, events: seq<Event>, n: nat, principal: string, used: Charge, lim: Limits)
    requires n <= |events| && IngestAll(codec, log, events[..n], principal, used, lim).Err?
    ensures IngestAll(codec, log, events, principal, used, lim)
            == Err(IngestAll(codec, log, events[..n], principal, used, lim).error)
    decreases |events|
  {
    if n == |events| {
      assert events[..n] == events;
    } else {
      assert events[..|events| - 1][..n] == events[..n];
      IngestAllFails(codec, log, events[..|events| - 1], n, principal, used, lim);
    }
  }

  // ---------------------------------------------------------------- what the log keeps

  predicate UniqueLog(log: Log) {
    forall i, j | 0 <= i < j < |log| :: !SameSlot(log[i], log[j]) && log[i].id != log[j].id
  }

  /** Each session, and each source on a node, has one principal. */
  predicate Bound(log: Log) {
    forall x, y :: x in log && y in log && (x.session == y.session || (x.source == y.source && x.node == y.node)) ==>
      x.principal == y.principal
  }

  lemma {:induction false} IngestAllExtends(
    codec: Codec, log: Log, events: seq<Event>, principal: string, used: Charge, lim: Limits)
    requires UniqueLog(log) && Bound(log)
    requires forall e :: e in events ==> e.principal == principal
    requires IngestAll(codec, log, events, principal, used, lim).Ok?
    ensures var b := IngestAll(codec, log, events, principal, used, lim).value;
            && UniqueLog(b.log) && Bound(b.log) && log <= b.log
            && b.answer == events && (forall e :: e in events ==> e in b.log)
            && |b.log| == |log| + b.count
            && (b.count > 0 ==> b.count + used.events <= lim.events && b.size + used.bytes <= lim.bytes)
  {
    if events != [] {
      var init, e := events[..|events| - 1], events[|events| - 1];
      assert events == init + [e];
      IngestAllExtends(codec, log, init, principal, used, lim);
      var b := IngestAll(codec, log, init, principal, used, lim).value;
      var b' := IngestAll(codec, log, events, principal, used, lim).value;
      hide UniqueLog, Bound, HasForeign, HasId, FindSlot;
      if FindSlot(b.log, e).None? {
        NewEventFits(b.log, e, principal);
        assert b'.log == b.log + [e];
        assert forall x :: x in b'.log <==> x in b.log || x == e;
      }
    }
  }

  lemma NewEventFits(log: Log, e: Event, principal: string)
    requires UniqueLog(log) && Bound(log) && e.principal == principal
    requires FindSlot(log, e).None? && !HasForeign(log, e, principal) && !HasId(log, e.id)
    ensures UniqueLog(log + [e]) && Bound(log + [e])
  {
    forall i | 0 <= i < |log| ensures !SameSlot(log[i], e) && log[i].id != e.id {
      assert log[i] in log;
    }
  }
}
