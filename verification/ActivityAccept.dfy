/** Which batches the activity log accepts (backend/activity.py), said of the log, the batch and the
    charges of the last window. */
module ActivityAccept {
  import opened Common
  import opened ActivityLog

  /** The events of a batch that the log does not hold yet, each once, in order. */
  function NewOnes(log: Log, events: seq<Event>): seq<Event> {
    if events == [] then []
    else
      var init, e := events[..|events| - 1], events[|events| - 1];
      NewOnes(log, init) + if e in log || e in init then [] else [e]
  }

  /** No event's session, or source on its node, belongs to another principal. */
  ghost predicate Unclaimed(log: Log, events: seq<Event>, principal: string) {
    forall e, x :: e in events && x in log && (x.session == e.session || (x.source == e.source && x.node == e.node)) ==>
      x.principal == principal
  }

  /** Each slot is free or holds that very event, also within the batch. */
  ghost predicate SlotsFit(log: Log, events: seq<Event>) {
    && (forall e, x :: e in events && x in log && SameSlot(x, e) ==> x == e)
    && (forall e, x :: e in events && x in events && SameSlot(x, e) ==> x == e)
  }

  /** The identifiers of the new events are new, also within the batch. */
  ghost predicate IdsFit(log: Log, events: seq<Event>) {
    && (forall e, x :: e in events && e !in log && x in log ==> x.id != e.id)
    && (forall e, x :: e in events && e !in log && x in events && x != e ==> x.id != e.id)
  }

  /** What a principal was charged for since a moment. */
  function ChargedEvents(usage: seq<Charge>, principal: string, since: real): nat {
    if usage == [] then 0
    else
      ChargedEvents(usage[1..], principal, since)
      + if usage[0].principal == principal && usage[0].at > since then usage[0].events else 0
  }

  function ChargedBytes(usage: seq<Charge>, principal: string, since: real): nat {
    if usage == [] then 0
    else
      ChargedBytes(usage[1..], principal, since)
      + if usage[0].principal == principal && usage[0].at > since then usage[0].bytes else 0
  }

  /** The new events and their bytes fit beside what was charged. */
  predicate HasRoom(codec: Codec, added: seq<Event>, events: nat, bytes: nat, lim: Limits) {
    added == [] || (|added| + events <= lim.events && TotalSize(codec, added) + bytes <= lim.bytes)
  }

  ghost predicate Fits(codec: Codec, log: Log, events: seq<Event>, principal: string, used: Charge, lim: Limits) {
    && Unclaimed(log, events, principal) && SlotsFit(log, events) && IdsFit(log, events)
    && HasRoom(codec, NewOnes(log, events), used.events, used.bytes, lim)
  }

  lemma {:induction false} NewOnesAre(log: Log, events: seq<Event>)
    ensures forall e :: e in NewOnes(log, events) <==> e in events && e !in log
  {
    if events != [] {
      NewOnesAre(log, events[..|events| - 1]);
      assert events == events[..|events| - 1] + [events[|events| - 1]];
    }
  }

  lemma SumsSnoc(codec: Codec, events: seq<Event>, e: Event)
    ensures TotalSize(codec, events + [e]) == TotalSize(codec, events) + codec.size(e)
  {
    assert (events + [e])[..|events|] == events;
  }

  lemma NewOnesSnoc(log: Log, init: seq<Event>, e: Event)
    ensures NewOnes(log, init + [e]) == NewOnes(log, init) + if e in log + NewOnes(log, init) then [] else [e]
    ensures forall x :: x in log + NewOnes(log, init) <==> x in log || x in init
  {
    assert (init + [e])[..|init|] == init;
    NewOnesAre(log, init);
    assert NewOnes(log, init) + [] == NewOnes(log, init);
  }

  /** One more event: it fits exactly when it is no foreigner's, its slot is free or its own, and a
      new one has a new identifier and room. */
  lemma FitsSnoc(codec: Codec, log: Log, init: seq<Event>, e: Event, principal: string, used: Charge, lim: Limits)
    requires forall x :: x in init ==> x.principal == principal
    requires Fits(codec, log, init, principal, used, lim)
    ensures var b := log + NewOnes(log, init);
            Fits(codec, log, init + [e], principal, used, lim)
            <==> !HasForeign(b, e, principal)
                 && (forall x :: x in b && SameSlot(x, e) ==> x == e)
                 && (e !in b ==> !HasId(b, e.id)
                                 && HasRoom(codec, NewOnes(log, init) + [e], used.events, used.bytes, lim))
  {
    hide NewOnes, HasRoom, Unclaimed, SlotsFit, IdsFit, HasForeign, HasId, SameSlot;
    var added := NewOnes(log, init);
    var b := log + added;
    NewOnesSnoc(log, init, e);
    UnclaimedSnoc(log, init, e, principal, b);
    SlotsSnoc(log, init, e, b);
    NewIds(log, init);
    IdsSnoc(log, init, e, b);
    assert added + [] == added;
  }

  lemma NewIds(log: Log, init: seq<Event>)
    requires IdsFit(log, init)
    ensures forall x, y :: x in log && y in init && y !in log ==> x.id != y.id
  {
  }

  /** What fits, fits without its last event. */
  lemma FitsShrinks(codec: Codec, log: Log, init: seq<Event>, e: Event, principal: string, used: Charge, lim: Limits)
    requires Fits(codec, log, init + [e], principal, used, lim)
    ensures Fits(codec, log, init, principal, used, lim)
  {
    hide *;
    FitsParts(codec, log, init + [e], principal, used, lim);
    PartsShrink(log, init, e, principal);
    NewOnesSnoc(log, init, e);
    assert NewOnes(log, init) + [] == NewOnes(log, init);
    if e !in log + NewOnes(log, init) {
      RoomShrinks(codec, NewOnes(log, init), e, used, lim);
    }
    FitsParts(codec, log, init, principal, used, lim);
  }

  lemma FitsParts(codec: Codec, log: Log, events: seq<Event>, principal: string, used: Charge, lim: Limits)
    ensures Fits(codec, log, events, principal, used, lim)
            <==> Unclaimed(log, events, principal) && SlotsFit(log, events) && IdsFit(log, events)
                 && HasRoom(codec, NewOnes(log, events), used.events, used.bytes, lim)
  {
    hide Unclaimed, SlotsFit, IdsFit, HasRoom, NewOnes;
  }

  lemma PartsShrink(log: Log, init: seq<Event>, e: Event, principal: string)
    ensures Unclaimed(log, init + [e], principal) ==> Unclaimed(log, init, principal)
    ensures SlotsFit(log, init + [e]) ==> SlotsFit(log, init)
    ensures IdsFit(log, init + [e]) ==> IdsFit(log, init)
  {
    hide SameSlot;
    assert forall x :: x in init + [e] <==> x in init || x == e;
  }

  lemma RoomShrinks(codec: Codec, added: seq<Event>, e: Event, used: Charge, lim: Limits)
    requires HasRoom(codec, added + [e], used.events, used.bytes, lim)
    ensures HasRoom(codec, added, used.events, used.bytes, lim)
  {
    SumsSnoc(codec, added, e);
    hide TotalSize;
  }

  lemma UnclaimedSnoc(log: Log, init: seq<Event>, e: Event, principal: string, b: Log)
    requires (forall x :: x in init ==> x.principal == principal) && (forall x :: x in b <==> x in log || x in init)
    requires Unclaimed(log, init, principal)
    ensures Unclaimed(log, init + [e], principal) <==> !HasForeign(b, e, principal)
  {
  }

  lemma SlotsSnoc(log: Log, init: seq<Event>, e: Event, b: Log)
    requires SlotsFit(log, init) && forall x :: x in b <==> x in log || x in init
    ensures SlotsFit(log, init + [e]) <==> forall x :: x in b && SameSlot(x, e) ==> x == e
  {
    assert forall x :: x in init + [e] <==> x in init || x == e;
  }

  lemma IdsSnoc(log: Log, init: seq<Event>, e: Event, b: Log)
    requires IdsFit(log, init) && forall x :: x in b <==> x in log || x in init
    requires forall x, y :: x in log && y in init && y !in log ==> x.id != y.id
    ensures IdsFit(log, init + [e]) && (forall x :: x in b && SameSlot(x, e) ==> x == e)
            <==> (e !in b ==> !HasId(b, e.id)) && (forall x :: x in b && SameSlot(x, e) ==> x == e)
  {
    assert forall x :: x in init + [e] <==> x in init || x == e;
  }

  // ---------------------------------------------------------------- the transaction

  /** Slots stay unique. */
  lemma OneInEachSlot(log: Log, events: seq<Event>)
    requires UniqueLog(log) && SlotsFit(log, events)
    ensures forall x, y :: x in log + NewOnes(log, events) && y in log + NewOnes(log, events) && SameSlot(x, y) ==> x == y
  {
    NewOnesAre(log, events);
    hide NewOnes;
    var all := log + NewOnes(log, events);
    assert forall x :: x in all ==> x in log || x in events;
    InOneSlot(log);
    forall x, y | x in all && y in all && SameSlot(x, y) ensures x == y {
      assert SameSlot(y, x);
      hide SameSlot;
    }
  }

  lemma InOneSlot(log: Log)
    requires UniqueLog(log)
    ensures forall x, y :: x in log && y in log && SameSlot(x, y) ==> x == y
  {
  }

  /** A batch of one principal goes through exactly when it fits, and then adds its new events. */
  lemma {:induction false} IngestAllIff(codec: Codec, log: Log, events: seq<Event>, principal: string, used: Charge, lim: Limits)
    requires UniqueLog(log) && forall e :: e in events ==> e.principal == principal
    ensures var r := IngestAll(codec, log, events, principal, used, lim);
            && (r.Ok? <==> Fits(codec, log, events, principal, used, lim))
            && (r.Ok? ==> var added := NewOnes(log, events);
                          r.value == Batch(log + added, events, |added|, TotalSize(codec, added)))
  {
    if events == [] {
      assert log + [] == log;
    } else {
      var init, e := events[..|events| - 1], events[|events| - 1];
      assert events == init + [e];
      IngestAllIff(codec, log, init, principal, used, lim);
      hide NewOnes, Fits, UniqueLog, IngestOne, TotalSize;
      if Fits(codec, log, init, principal, used, lim) {
        LastStepIff(codec, log, init, e, principal, used, lim);
      } else if Fits(codec, log, events, principal, used, lim) {
        FitsShrinks(codec, log, init, e, principal, used, lim);
      }
    }
  }

  lemma LastStepIff(codec: Codec, log: Log, init: seq<Event>, e: Event, principal: string, used: Charge, lim: Limits)
    requires UniqueLog(log) && Fits(codec, log, init, principal, used, lim)
    requires forall x :: x in init ==> x.principal == principal
    ensures var added, more := NewOnes(log, init), NewOnes(log, init + [e]);
            var r := IngestOne(codec, Batch(log + added, init, |added|, TotalSize(codec, added)), e, principal, used, lim);
            && (r.Ok? <==> Fits(codec, log, init + [e], principal, used, lim))
            && (r.Ok? ==> r.value == Batch(log + more, init + [e], |more|, TotalSize(codec, more)))
  {
    hide *;
    var added := NewOnes(log, init);
    FitsParts(codec, log, init, principal, used, lim);
    OneInEachSlot(log, init);
    FitsSnoc(codec, log, init, e, principal, used, lim);
    NewOnesSnoc(log, init, e);
    SlotOf(log + added, e);
    OneStepIff(codec, Batch(log + added, init, |added|, TotalSize(codec, added)), added, e, principal, used, lim);
    SumsSnoc(codec, added, e);
    assert (log + added) + [e] == log + (added + [e]) && added + [] == added;
  }

  lemma SlotOf(b: Log, e: Event)
    requires forall x, y :: x in b && y in b && SameSlot(x, y) ==> x == y
    ensures FindSlot(b, e).None? <==> e !in b && forall x :: x in b && SameSlot(x, e) ==> x == e
    ensures FindSlot(b, e).Some? ==> (FindSlot(b, e).value == e <==> e in b && forall x :: x in b && SameSlot(x, e) ==> x == e)
    ensures FindSlot(b, e).Some? ==> FindSlot(b, e).value in b && SameSlot(FindSlot(b, e).value, e)
  {
    assert SameSlot(e, e);
    hide FindSlot;
    if FindSlot(b, e).Some? {
      var p := FindSlot(b, e).value;
      forall x | x in b && SameSlot(x, e) && p == e ensures x == e {
        assert SameSlot(x, p);
      }
    }
  }

  lemma OneStepIff(codec: Codec, b: Batch, added: seq<Event>, e: Event, principal: string, used: Charge, lim: Limits)
    requires b.count == |added| && b.size == TotalSize(codec, added)
    ensures var r := IngestOne(codec, b, e, principal, used, lim);
            && (r.Ok? <==>
                !HasForeign(b.log, e, principal)
                && (FindSlot(b.log, e).Some? ==> FindSlot(b.log, e).value == e)
                && (FindSlot(b.log, e).None? ==>
                      !HasId(b.log, e.id) && HasRoom(codec, added + [e], used.events, used.bytes, lim)))
            && (r.Ok? ==> r.value == if FindSlot(b.log, e).Some? then b.(answer := b.answer + [e])
                                     else Batch(b.log + [e], b.answer + [e], |added| + 1, b.size + codec.size(e)))
  {
    SumsSnoc(codec, added, e);
    hide TotalSize, HasForeign, HasId, FindSlot;
  }

  // ---------------------------------------------------------------- the whole call

  /** Redaction accepts an event and leaves its binding identifiers alone. */
  predicate Redactable(codec: Codec, e: Event) {
    && codec.redact(e).Some?
    && codec.redact(e).value.principal == e.principal && codec.redact(e).value.source == e.source
    && codec.redact(e).value.node == e.node && codec.redact(e).value.session == e.session && codec.redact(e).value.id == e.id
  }

  lemma {:induction false} RedactAllIff(codec: Codec, events: seq<Event>)
    ensures var r := RedactAll(codec, events);
            && (r.Some? <==> forall e :: e in events ==> Redactable(codec, e))
            && (r.Some? ==> |r.value| == |events| && forall i | 0 <= i < |events| :: Some(r.value[i]) == codec.redact(events[i]))
  {
    if events != [] {
      var init, e := events[..|events| - 1], events[|events| - 1];
      RedactAllIff(codec, init);
      assert events == init + [e];
      assert (forall x :: x in events ==> Redactable(codec, x)) <==> (forall x :: x in init ==> Redactable(codec, x)) && Redactable(codec, e);
    }
  }

  lemma {:induction false} UsedSums(usage: seq<Charge>, principal: string, since: real)
    ensures Used(Recent(usage, since), principal).events == ChargedEvents(usage, principal, since)
    ensures Used(Recent(usage, since), principal).bytes == ChargedBytes(usage, principal, since)
  {
    if usage != [] {
      var init, last := usage[..|usage| - 1], usage[|usage| - 1];
      UsedSums(init, principal, since);
      ChargesSnoc(init, last, principal, since);
      assert usage == init + [last];
      assert (Recent(init, since) + [last])[..|Recent(init, since)|] == Recent(init, since);
    }
  }

  lemma {:induction false} ChargesSnoc(usage: seq<Charge>, c: Charge, principal: string, since: real)
    ensures var counts := c.principal == principal && c.at > since;
            && ChargedEvents(usage + [c], principal, since)
               == ChargedEvents(usage, principal, since) + (if counts then c.events else 0)
            && ChargedBytes(usage + [c], principal, since)
               == ChargedBytes(usage, principal, since) + (if counts then c.bytes else 0)
  {
    if usage == [] {
      assert ([] + [c])[1..] == [];
    } else {
      ChargesSnoc(usage[1..], c, principal, since);
      assert (usage + [c])[1..] == usage[1..] + [c];
    }
  }

  lemma {:induction false} RecentCharges(usage: seq<Charge>, principal: string, cutoff: real, since: real)
    requires cutoff <= since
    ensures ChargedEvents(Recent(usage, cutoff), principal, since) == ChargedEvents(usage, principal, since)
    ensures ChargedBytes(Recent(usage, cutoff), principal, since) == ChargedBytes(usage, principal, since)
  {
    if usage != [] {
      var init, last := usage[..|usage| - 1], usage[|usage| - 1];
      RecentCharges(init, principal, cutoff, since);
      ChargesSnoc(init, last, principal, since);
      ChargesSnoc(Recent(init, cutoff), last, principal, since);
      assert usage == init + [last];
    }
  }

  /** A batch that may be sent at all: its arguments, its number and size, its principal. */
  ghost predicate WellFormed(codec: Codec, events: seq<Event>, principal: string, lim: Limits) {
    && principal != "" && lim.events >= 1 && lim.bytes >= 1
    && 1 <= |events| <= 100 && TotalSize(codec, events) <= 262144
    && forall e :: e in events ==> e.principal == principal && Redactable(codec, e)
  }

  /** The events as they are stored. */
  ghost predicate IsRedaction(codec: Codec, events: seq<Event>, safe: seq<Event>) {
    |safe| == |events| && forall i | 0 <= i < |events| :: codec.redact(events[i]) == Some(safe[i])
  }

  lemma CheckedIff(codec: Codec, events: seq<Event>, principal: string, lim: Limits)
    ensures Checked(codec, events, principal, lim).Ok? <==> WellFormed(codec, events, principal, lim)
    ensures Checked(codec, events, principal, lim).Ok? ==>
              var safe := Checked(codec, events, principal, lim).value;
              IsRedaction(codec, events, safe) && forall e :: e in safe ==> e.principal == principal
  {
    hide TotalSize;
    RedactAllIff(codec, events);
  }

  /** Main result: a batch is accepted if and only if it is well formed, none of its sessions and
      sources belongs to another principal, each slot is free or holds that very event, new
      identifiers are new, and the new events and their bytes fit beside what was charged in the last
      60 seconds. An accepted batch adds exactly its new events and charges for them; a refused one
      changes nothing. */
  lemma AcceptedIff(codec: Codec, s: Store, events: seq<Event>, safe: seq<Event>, principal: string, lim: Limits, now: real)
    requires UniqueLog(s.log)
    requires WellFormed(codec, events, principal, lim) ==> IsRedaction(codec, events, safe)
    ensures var r, added := Ingest(codec, s, events, principal, lim, now), NewOnes(s.log, safe);
            && (r.answer.Ok? <==>
                && WellFormed(codec, events, principal, lim)
                && Unclaimed(s.log, safe, principal) && SlotsFit(s.log, safe) && IdsFit(s.log, safe)
                && HasRoom(codec, added, ChargedEvents(s.usage, principal, now - 60.0),
                           ChargedBytes(s.usage, principal, now - 60.0), lim))
            && (r.answer.Ok? ==>
                  && r.answer.value == safe && r.store.log == s.log + added
                  && r.charge == if added == [] then None else Some(Charge(principal, now, |added|, TotalSize(codec, added))))
            && (r.answer.Err? ==> r.store == s && r.charge.None?)
  {
    CheckedIff(codec, events, principal, lim);
    var used := Used(Recent(s.usage, now - WINDOW), principal);
    UsedSums(s.usage, principal, now - 60.0);
    if Checked(codec, events, principal, lim).Ok? {
      assert Checked(codec, events, principal, lim).value == safe;
      IngestAllIff(codec, s.log, safe, principal, used, lim);
      FitsParts(codec, s.log, safe, principal, used, lim);
    }
    hide *;
    IngestIs(codec, s, events, principal, lim, now);
  }

  /** Afterwards the call is charged to its principal and nobody else, in every window that is still
      to come. */
  lemma ChargedAfterwards(
    codec: Codec, s: Store, events: seq<Event>, principal: string, lim: Limits, now: real, other: string, since: real)
    requires now - 60.0 <= since < now
    ensures var r := Ingest(codec, s, events, principal, lim, now);
            var mine := r.charge.Some? && other == principal;
            && ChargedEvents(r.store.usage, other, since)
               == ChargedEvents(s.usage, other, since) + (if mine then r.charge.value.events else 0)
            && ChargedBytes(r.store.usage, other, since)
               == ChargedBytes(s.usage, other, since) + (if mine then r.charge.value.bytes else 0)
  {
    RecentCharges(s.usage, other, now - 60.0, since);
    var r := Ingest(codec, s, events, principal, lim, now);
    if r.charge.Some? {
      ChargesSnoc(Recent(s.usage, now - 60.0), r.charge.value, other, since);
    }
    hide Checked, IngestAll, Used, Recent, ChargedEvents, ChargedBytes;
  }

  /** Why one event after an accepted part of its batch is refused. */
  ghost predicate RefusedFor(
    codec: Codec, log: Log, before: seq<Event>, e: Event, principal: string, used: Charge, lim: Limits, why: Error)
  {
    var b := log + NewOnes(log, before);
    var taken := exists x :: x in b && SameSlot(x, e);
    if !Unclaimed(log, [e], principal) then why == Foreign
    else if taken then e !in b && why == Conflict
    else if !HasRoom(codec, NewOnes(log, before) + [e], used.events, used.bytes, lim) then why == OverQuota
    else (exists x :: x in b && x.id == e.id) && why == Conflict
  }

  /** A refused transaction names what is wrong with its first event that does not fit. */
  lemma {:induction false} RefusalNamesTheFirst(
    codec: Codec, log: Log, events: seq<Event>, principal: string, used: Charge, lim: Limits)
    requires UniqueLog(log) && forall e :: e in events ==> e.principal == principal
    requires IngestAll(codec, log, events, principal, used, lim).Err?
    ensures exists n | 0 <= n < |events| ::
              Fits(codec, log, events[..n], principal, used, lim)
              && RefusedFor(codec, log, events[..n], events[n], principal, used, lim,
                            IngestAll(codec, log, events, principal, used, lim).error)
  {
    var init, e := events[..|events| - 1], events[|events| - 1];
    IngestAllIff(codec, log, init, principal, used, lim);
    hide NewOnes, Fits, UniqueLog, IngestOne, TotalSize, RefusedFor;
    if Fits(codec, log, init, principal, used, lim) {
      StepRefusal(codec, log, init, e, principal, used, lim);
    } else {
      RefusalNamesTheFirst(codec, log, init, principal, used, lim);
      var n :| 0 <= n < |init| && Fits(codec, log, init[..n], principal, used, lim)
               && RefusedFor(codec, log, init[..n], init[n], principal, used, lim,
                             IngestAll(codec, log, init, principal, used, lim).error);
      assert events[..n] == init[..n] && events[n] == init[n];
    }
  }

  lemma StepRefusal(codec: Codec, log: Log, init: seq<Event>, e: Event, principal: string, used: Charge, lim: Limits)
    requires UniqueLog(log) && Fits(codec, log, init, principal, used, lim)
    requires forall x :: x in init ==> x.principal == principal
    requires var added := NewOnes(log, init);
             IngestOne(codec, Batch(log + added, init, |added|, TotalSize(codec, added)), e, principal, used, lim).Err?
    ensures var added := NewOnes(log, init);
            RefusedFor(codec, log, init, e, principal, used, lim,
              IngestOne(codec, Batch(log + added, init, |added|, TotalSize(codec, added)), e, principal, used, lim).error)
  {
    hide NewOnes, Fits, UniqueLog, TotalSize, Unclaimed, SlotsFit, IdsFit, SameSlot, HasForeign, FindSlot;
    var added := NewOnes(log, init);
    FitsParts(codec, log, init, principal, used, lim);
    OneInEachSlot(log, init);
    SlotOf(log + added, e);
    SumsSnoc(codec, added, e);
    ForeignIs(log, init, e, principal);
    TakenIff(log + added, e);
  }

  lemma TakenIff(b: Log, e: Event)
    ensures FindSlot(b, e).Some? <==> exists x :: x in b && SameSlot(x, e)
  {
  }

  lemma ForeignIs(log: Log, init: seq<Event>, e: Event, principal: string)
    requires forall x :: x in init ==> x.principal == principal
    ensures HasForeign(log + NewOnes(log, init), e, principal) <==> !Unclaimed(log, [e], principal)
  {
    NewOnesAre(log, init);
  }

  lemma IngestIs(codec: Codec, s: Store, events: seq<Event>, principal: string, lim: Limits, now: real)
    ensures var checked := Checked(codec, events, principal, lim);
            var r := Ingest(codec, s, events, principal, lim, now);
            if checked.Err? then r == Ingested(s, Err(checked.error), None)
            else
              var b := IngestAll(codec, s.log, checked.value, principal, Used(Recent(s.usage, now - WINDOW), principal), lim);
              if b.Err? then r == Ingested(s, Err(b.error), None)
              else
                && r.answer == Ok(b.value.answer) && r.store.log == b.value.log
                && r.charge == if b.value.count == 0 then None else Some(Charge(principal, now, b.value.count, b.value.size))
  {
    hide Checked, IngestAll, Used, Recent;
  }

  /** A single append is accepted if and only if the very event is stored already, and then changes
      nothing, or its slot and its identifier are free. */
  lemma AppendedIff(log: Log, e: Event)
    requires UniqueLog(log)
    ensures var (after, r) := Append(log, e);
            && (r == Ok(e) && after == log <==> e in log)
            && (r == Ok(e) && after == log + [e] <==> e !in log && forall x :: x in log ==> !SameSlot(x, e) && x.id != e.id)
            && (r.Ok? ==> r == Ok(e)) && (r.Err? ==> r == Err(Conflict) && after == log)
            && (r.Ok? && e !in log ==> after == log + [e])
  {
    InOneSlot(log);
    SlotOf(log, e);
    hide FindSlot, UniqueLog;
    assert |log + [e]| == |log| + 1;
    if e in log {
      assert SameSlot(e, e);
    }
  }
}
