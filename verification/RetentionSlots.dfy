/** Retention gaps and the recorder share one numbering (backend/activity_transcript.py,
    clients/fleet/fleet_rec.py): a gap takes the number after the recorder's largest, which is the
    number the recorder gives its own next event. */
module RetentionSlots {
  import opened Common
  import opened ActivityLog
  import opened Retention
  import opened RetentionRuns

  /** How many of the removed chunks belong to a session. */
  function CountOf(gone: seq<Removal>, session: string): nat {
    if gone == [] then 0
    else CountOf(gone[..|gone| - 1], session) + if gone[|gone| - 1].chunk.session == session then 1 else 0
  }

  lemma {:induction false} CountIsZeroIff(gone: seq<Removal>, session: string)
    ensures CountOf(gone, session) == 0 <==> forall r :: r in gone ==> r.chunk.session != session
  {
    if gone != [] {
      CountIsZeroIff(gone[..|gone| - 1], session);
      assert gone == gone[..|gone| - 1] + [gone[|gone| - 1]];
    }
  }

  /** The recorder has an event with this number in the session. */
  predicate Taken(log: Log, session: string, k: nat) {
    exists e :: e in log && e.source == RECORDER && e.session == session && e.seqNo == k
  }

  lemma TakenSnoc(log: Log, e: Event, session: string, k: nat)
    ensures Taken(log + [e], session, k)
            <==> Taken(log, session, k) || (e.source == RECORDER && e.session == session && e.seqNo == k)
    ensures NextGapSeq(log + [e], session)
            == if e.source == RECORDER && e.session == session && e.seqNo >= NextGapSeq(log, session) then e.seqNo + 1
               else NextGapSeq(log, session)
  {
    var all := log + [e];
    assert all[..|log|] == log;
    if Taken(log, session, k) {
      var x :| x in log && x.source == RECORDER && x.session == session && x.seqNo == k;
      assert x in all;
    }
    assert e in all;
  }

  /** The gaps of a session take exactly the numbers that follow the recorder's largest. */
  lemma {:induction false} GapsTakeTheNextSlots(log: Log, gone: seq<Removal>, f: Stamp, session: string, k: nat)
    ensures var n, after := NextGapSeq(log, session), log + Gaps(log, gone, f);
            && NextGapSeq(after, session) == n + CountOf(gone, session)
            && (Taken(after, session, k) <==> Taken(log, session, k) || n <= k < n + CountOf(gone, session))
  {
    if gone == [] {
      assert log + Gaps(log, gone, f) == log;
    } else {
      var init, r := gone[..|gone| - 1], gone[|gone| - 1];
      GapsTakeTheNextSlots(log, init, f, session, k);
      var before := log + Gaps(log, init, f);
      TakenSnoc(before, Gap(before, r, f), session, k);
      hide Taken, NextGapSeq;
      assert log + Gaps(log, gone, f) == before + [Gap(before, r, f)];
    }
  }

  /** Where a sweep leaves the recorder's event a free slot. */
  predicate StaysFree(s: State, gone: seq<Removal>, e: Event) {
    var n := NextGapSeq(s.log, e.session);
    !Taken(s.log, e.session, e.seqNo) && !(n <= e.seqNo < n + CountOf(gone, e.session))
  }

  lemma SweptSlots(s: State, settings: Settings, f: Stamp, e: Event)
    requires Valid(s.chunks) && IdsAreFresh(f) && e.source == RECORDER
    ensures FindSlot(Sweep(s, settings, f).state.log, e).None? <==> StaysFree(s, Sweep(s, settings, f).gone, e)
  {
    var swept := Sweep(s, settings, f);
    EveryRemovalIsRecorded(s, settings, f);
    GapsTakeTheNextSlots(s.log, swept.gone, f, e.session, e.seqNo);
    assert swept.state.log == s.log + Gaps(s.log, swept.gone, f);
    hide Sweep, Accounts, Gaps;
    assert FindSlot(swept.state.log, e).None? <==> !Taken(swept.state.log, e.session, e.seqNo);
  }

  /** Main result: posted after a sweep, with room in the quota, a new event of the recorder is
      accepted if and only if its slot was free and the gaps did not take it; for the number the
      recorder uses next that is the case if and only if the sweep removed no chunk of its session. */
  lemma NextEventIsAcceptedIff(
    s: State, settings: Settings, f: Stamp, codec: Codec, usage: seq<Charge>, event: Event, e: Event,
    principal: string, lim: Limits, now: real)
    requires Valid(s.chunks) && IdsAreFresh(f)
    requires Checked(codec, [event], principal, lim) == Ok([e]) && e.source == RECORDER
    requires var log := Sweep(s, settings, f).state.log;
             !HasId(log, e.id) && !HasForeign(log, e, principal)
    requires var used := Used(Recent(usage, now - WINDOW), principal);
             1 + used.events <= lim.events && codec.size(e) + used.bytes <= lim.bytes
    ensures var swept := Sweep(s, settings, f);
            var r := Ingest(codec, Store(swept.state.log, usage), [event], principal, lim, now);
            && (r.answer.Ok? <==> StaysFree(s, swept.gone, e))
            && (r.answer.Err? ==> r.answer == Err(Conflict) && r.store == Store(swept.state.log, usage))
            && (e.seqNo == NextGapSeq(s.log, e.session) ==>
                (r.answer.Ok? <==> forall g :: g in swept.gone ==> g.chunk.session != e.session))
  {
    var swept := Sweep(s, settings, f);
    SweptSlots(s, settings, f, e);
    CountIsZeroIff(swept.gone, e.session);
    hide *;
    OneEventIngested(codec, Store(swept.state.log, usage), event, e, principal, lim, now);
    if e.seqNo == NextGapSeq(s.log, e.session) {
      SlotIsFree(s, swept.gone, e);
    }
  }

  /** A batch of one new event, with room in the quota. */
  lemma OneEventIngested(codec: Codec, st: Store, event: Event, e: Event, principal: string, lim: Limits, now: real)
    requires Checked(codec, [event], principal, lim) == Ok([e])
    requires !HasId(st.log, e.id) && !HasForeign(st.log, e, principal)
    requires var used := Used(Recent(st.usage, now - WINDOW), principal);
             1 + used.events <= lim.events && codec.size(e) + used.bytes <= lim.bytes
    ensures var r := Ingest(codec, st, [event], principal, lim, now);
            && (r.answer.Ok? <==> FindSlot(st.log, e).None?)
            && (r.answer.Err? ==> r.answer == Err(Conflict) && r.store == st)
  {
    hide Checked, HasForeign, Used, Recent;
    NewIsNotThere(st.log, e);
    hide HasId;
    assert [e][..0] == [];
    var used := Used(Recent(st.usage, now - WINDOW), principal);
    assert IngestAll(codec, st.log, [e], principal, used, lim)
        == IngestOne(codec, Batch(st.log, [], 0, 0), e, principal, used, lim);
  }

  lemma SlotIsFree(s: State, gone: seq<Removal>, e: Event)
    requires e.seqNo == NextGapSeq(s.log, e.session)
    ensures StaysFree(s, gone, e) <==> CountOf(gone, e.session) == 0
  {
    NextNumberIsFree(s.log, e.session);
  }

  lemma NextNumberIsFree(log: Log, session: string)
    ensures !Taken(log, session, NextGapSeq(log, session))
  {
  }

  lemma NewIsNotThere(log: Log, e: Event)
    requires !HasId(log, e.id)
    ensures e !in log
  {
  }

  // ---------------------------------------------------------------- the batch that carries it

  /** The first event in a slot stays the first. */
  lemma {:induction false} SlotStays(log: Log, more: Log, e: Event)
    requires log <= more && FindSlot(log, e).Some?
    ensures FindSlot(more, e) == FindSlot(log, e)
  {
    if !SameSlot(log[0], e) {
      SlotStays(log[1..], more[1..], e);
    }
  }

  lemma {:induction false} IngestAllOnlyAdds(
    codec: Codec, log: Log, events: seq<Event>, principal: string, used: Charge, lim: Limits)
    requires IngestAll(codec, log, events, principal, used, lim).Ok?
    ensures log <= IngestAll(codec, log, events, principal, used, lim).value.log
  {
    if events != [] {
      hide HasForeign, HasId, FindSlot;
      IngestAllOnlyAdds(codec, log, events[..|events| - 1], principal, used, lim);
    }
  }

  lemma {:induction false} OneConflictFailsAll(
    codec: Codec, log: Log, events: seq<Event>, principal: string, used: Charge, lim: Limits, e: Event)
    requires e in events && FindSlot(log, e).Some? && FindSlot(log, e).value != e
    ensures IngestAll(codec, log, events, principal, used, lim).Err?
  {
    var init, last := events[..|events| - 1], events[|events| - 1];
    assert events == init + [last];
    if IngestAll(codec, log, init, principal, used, lim).Ok? {
      if e in init {
        OneConflictFailsAll(codec, log, init, principal, used, lim, e);
      } else {
        IngestAllOnlyAdds(codec, log, init, principal, used, lim);
        SlotStays(log, IngestAll(codec, log, init, principal, used, lim).value.log, e);
      }
    }
  }

  /** Main result: a gap takes the slot of the recorder's next event for good: after a sweep that
      removed a chunk of its session, every batch that carries that event is refused and rolled
      back, whatever has been logged since. */
  lemma GapBlocksTheRecorder(
    s: State, settings: Settings, f: Stamp, codec: Codec, later: Store, events: seq<Event>, safe: seq<Event>, e: Event,
    principal: string, lim: Limits, now: real)
    requires Valid(s.chunks) && IdsAreFresh(f)
    requires e.source == RECORDER && e.seqNo == NextGapSeq(s.log, e.session)
    requires var swept := Sweep(s, settings, f);
             && !HasId(swept.state.log, e.id) && swept.state.log <= later.log
             && exists r :: r in swept.gone && r.chunk.session == e.session
    requires Checked(codec, events, principal, lim) == Ok(safe) && e in safe
    ensures var r := Ingest(codec, later, events, principal, lim, now);
            r.answer.Err? && r.store == later && r.charge.None?
  {
    var log := Sweep(s, settings, f).state.log;
    SweptSlots(s, settings, f, e);
    CountIsZeroIff(Sweep(s, settings, f).gone, e.session);
    hide Sweep, Checked, CountOf;
    assert FindSlot(log, e).Some? && FindSlot(log, e).value.id != e.id;
    SlotStays(log, later.log, e);
    OneConflictFailsAll(codec, later.log, safe, principal, Used(Recent(later.usage, now - WINDOW), principal), lim, e);
  }

  /** A chunk, the sweep that removes it, and the number 0 that its gap takes. */
  lemma GapTakesTheNextSlot(f: Stamp, e: Event)
    requires e.source == RECORDER && e.session == "s" && e.seqNo == 0
    ensures var s := State([Chunk("s", 0, "n", "p", 1.0, [7])], []);
            var swept := Sweep(s, Settings(Some(2.0), 0, []), f);
            && Valid(s.chunks) && swept.gone == [Removal(s.chunks[0], "age")]
            && NextGapSeq(s.log, "s") == 0 && FindSlot(swept.state.log, e).Some?
  {
    var c := Chunk("s", 0, "n", "p", 1.0, [7]);
    var s := State([c], []);
    assert [c][1..] == [] && [Removal(c, "age")][1..] == [];
    assert Expired([c], 2.0) == [Removal(c, "age")];
    assert Find([c], "s", 0) == Some(c);
    var gap := Gap([], Removal(c, "age"), f);
    assert [] + [gap] == [gap];
    assert Append([], gap).0 == [gap];
    assert RemoveOne(s, Removal(c, "age"), f).log == [gap];
    assert RemoveAll(s, [Removal(c, "age")], f).log == [gap];
    assert [] + [Removal(c, "age")] == [Removal(c, "age")];
    assert Sweep(s, Settings(Some(2.0), 0, []), f) == Take(Swept(s, []), [Removal(c, "age")], f);
    assert SameSlot([gap][0], e);
  }
}
