/** What a retention sweep leaves and what it records: age limit and caps hold together, every
    removed chunk has its gap, and everything else is untouched. */
module RetentionRuns {
  import opened Common
  import opened ActivityLog
  import opened Retention

  predicate Leaves(c: Chunk, gone: seq<Removal>) {
    exists i | 0 <= i < |gone| :: gone[i].chunk == c
  }

  /** The chunks that are not removed, in their order. */
  function Survivors(chunks: Chunks, gone: seq<Removal>): Chunks {
    if chunks == [] then []
    else (if Leaves(chunks[0], gone) then [] else [chunks[0]]) + Survivors(chunks[1..], gone)
  }

  /** One gap for each removal, numbered after the gaps before it. */
  function Gaps(log: Log, gone: seq<Removal>, f: Stamp): (gaps: seq<Event>)
    ensures |gaps| == |gone|
  {
    if gone == [] then []
    else
      var before := Gaps(log, gone[..|gone| - 1], f);
      before + [Gap(log + before, gone[|gone| - 1], f)]
  }

  predicate DistinctChunks(gone: seq<Removal>) {
    forall i, j | 0 <= i < j < |gone| :: gone[i].chunk != gone[j].chunk
  }

  predicate AllStored(chunks: Chunks, gone: seq<Removal>) {
    forall i | 0 <= i < |gone| :: gone[i].chunk in chunks
  }

  /** The sweep so far is exactly its list of removals, each recorded once. */
  ghost predicate Accounts(s: State, w: Swept, f: Stamp) {
    && Valid(w.state.chunks)
    && AllStored(s.chunks, w.gone) && DistinctChunks(w.gone)
    && w.state.chunks == Survivors(s.chunks, w.gone)
    && w.state.log == s.log + Gaps(s.log, w.gone, f)
    && (UniqueLog(s.log) ==> UniqueLog(w.state.log))
  }

  lemma {:induction false} SurvivorsAre(chunks: Chunks, gone: seq<Removal>, c: Chunk)
    ensures c in Survivors(chunks, gone) <==> c in chunks && !Leaves(c, gone)
  {
    if chunks != [] {
      SurvivorsAre(chunks[1..], gone, c);
    }
  }

  lemma {:induction false} NobodyLeaves(chunks: Chunks)
    ensures Survivors(chunks, []) == chunks
  {
    if chunks != [] {
      NobodyLeaves(chunks[1..]);
    }
  }

  lemma LeavesSnoc(c: Chunk, gone: seq<Removal>, r: Removal)
    ensures Leaves(c, gone + [r]) <==> Leaves(c, gone) || c == r.chunk
  {
    var all := gone + [r];
    if Leaves(c, gone) {
      var i :| 0 <= i < |gone| && gone[i].chunk == c;
      assert all[i].chunk == c;
    }
    if c == r.chunk {
      assert all[|gone|].chunk == c;
    }
  }

  lemma {:induction false} OneMoreLeaves(chunks: Chunks, gone: seq<Removal>, r: Removal)
    requires forall c :: c in chunks && SameKey(c, r.chunk) ==> c == r.chunk
    ensures Survivors(chunks, gone + [r]) == Delete(Survivors(chunks, gone), r.chunk.session, r.chunk.seqNo)
  {
    if chunks != [] {
      assert chunks[0] in chunks;
      OneMoreLeaves(chunks[1..], gone, r);
      LeavesSnoc(chunks[0], gone, r);
      var rest := Survivors(chunks[1..], gone);
      assert ([chunks[0]] + rest)[1..] == rest && [] + rest == rest;
      var less := Delete(rest, r.chunk.session, r.chunk.seqNo);
      assert [] + less == less;
      assert SameKey(chunks[0], r.chunk) ==> chunks[0] == r.chunk;
      hide Leaves;
    }
  }

  lemma OneKey(chunks: Chunks, a: Chunk, b: Chunk)
    requires Valid(chunks) && a in chunks && b in chunks && SameKey(a, b)
    ensures a == b
  {
  }

  lemma PlanSnoc(chunks: Chunks, gone: seq<Removal>, r: Removal)
    requires AllStored(chunks, gone) && DistinctChunks(gone) && r.chunk in chunks && !Leaves(r.chunk, gone)
    ensures AllStored(chunks, gone + [r]) && DistinctChunks(gone + [r])
  {
    assert forall i | 0 <= i < |gone| :: gone[i].chunk != r.chunk;
  }

  /** One more removal of a stored chunk is accounted for. */
  lemma RemovalAccounts(s: State, w: Swept, r: Removal, f: Stamp)
    requires Valid(s.chunks) && IdsAreFresh(f) && Accounts(s, w, f) && r.chunk in w.state.chunks
    ensures Accounts(s, Swept(RemoveOne(w.state, r, f), w.gone + [r]), f)
  {
    var c := r.chunk;
    SurvivorsAre(s.chunks, w.gone, c);
    PlanSnoc(s.chunks, w.gone, r);
    RemovedIsGone(s.chunks, w.gone, r);
    DeleteKeepsValid(w.state.chunks, c.session, c.seqNo, None);
    GapIsAppended(w.state.log, r, f);
    GapsSnoc(s.log, w.gone, r, f);
    RemovedState(w.state, r, f);
    hide *;
    AccountsFrom(s, Swept(RemoveOne(w.state, r, f), w.gone + [r]), f, w);
  }

  lemma RemovedIsGone(chunks: Chunks, gone: seq<Removal>, r: Removal)
    requires Valid(chunks) && r.chunk in chunks
    ensures Survivors(chunks, gone + [r]) == Delete(Survivors(chunks, gone), r.chunk.session, r.chunk.seqNo)
  {
    forall d | d in chunks && SameKey(d, r.chunk) ensures d == r.chunk {
      OneKey(chunks, d, r.chunk);
    }
    hide Valid;
    OneMoreLeaves(chunks, gone, r);
  }

  lemma GapsSnoc(log: Log, gone: seq<Removal>, r: Removal, f: Stamp)
    ensures log + Gaps(log, gone + [r], f) == (log + Gaps(log, gone, f)) + [Gap(log + Gaps(log, gone, f), r, f)]
  {
    hide Gap;
    assert (gone + [r])[..|gone|] == gone;
  }

  lemma RemovedState(s: State, r: Removal, f: Stamp)
    requires IdsAreFresh(f) && r.chunk in s.chunks
    ensures RemoveOne(s, r, f) == State(Delete(s.chunks, r.chunk.session, r.chunk.seqNo), s.log + [Gap(s.log, r, f)])
  {
    GapIsAppended(s.log, r, f);
    hide Gap, IdsAreFresh;
    assert Find(s.chunks, r.chunk.session, r.chunk.seqNo).Some?;
  }

  lemma AccountsFrom(s: State, w: Swept, f: Stamp, before: Swept)
    requires Valid(w.state.chunks) && AllStored(s.chunks, w.gone) && DistinctChunks(w.gone)
    requires w.state.chunks == Survivors(s.chunks, w.gone) && w.state.log == s.log + Gaps(s.log, w.gone, f)
    requires UniqueLog(s.log) ==> UniqueLog(before.state.log)
    requires UniqueLog(before.state.log) ==> UniqueLog(w.state.log)
    ensures Accounts(s, w, f)
  {
    hide Valid, AllStored, DistinctChunks, Survivors, Gaps, UniqueLog;
  }

  lemma RestStays(chunks: Chunks, rs: seq<Removal>)
    requires Valid(chunks) && rs != [] && AllStored(chunks, rs) && DistinctChunks(rs)
    ensures AllStored(Delete(chunks, rs[0].chunk.session, rs[0].chunk.seqNo), rs[1..]) && DistinctChunks(rs[1..])
  {
    var c := rs[0].chunk;
    forall i | 0 <= i < |rs[1..]| ensures rs[1..][i].chunk in Delete(chunks, c.session, c.seqNo) {
      var d := rs[i + 1].chunk;
      if SameKey(d, c) {
        OneKey(chunks, d, c);
      }
      DeleteKeeps(chunks, c.session, c.seqNo, d);
    }
  }

  lemma {:induction false} TakeAccounts(s: State, w: Swept, rs: seq<Removal>, f: Stamp)
    requires Valid(s.chunks) && IdsAreFresh(f) && Accounts(s, w, f)
    requires AllStored(w.state.chunks, rs) && DistinctChunks(rs)
    ensures Accounts(s, Take(w, rs, f), f)
    decreases |rs|
  {
    hide Accounts, Valid, RemoveOne, AllStored, DistinctChunks, IdsAreFresh;
    if rs == [] {
      assert w.gone + [] == w.gone;
    } else {
      var next := Swept(RemoveOne(w.state, rs[0], f), w.gone + [rs[0]]);
      FirstGoes(s, w, rs, f);
      TakeAccounts(s, next, rs[1..], f);
      assert (w.gone + [rs[0]]) + rs[1..] == w.gone + rs;
    }
  }

  lemma FirstGoes(s: State, w: Swept, rs: seq<Removal>, f: Stamp)
    requires Valid(s.chunks) && IdsAreFresh(f) && Accounts(s, w, f)
    requires rs != [] && AllStored(w.state.chunks, rs) && DistinctChunks(rs)
    ensures var next := Swept(RemoveOne(w.state, rs[0], f), w.gone + [rs[0]]);
            Accounts(s, next, f) && AllStored(next.state.chunks, rs[1..]) && DistinctChunks(rs[1..])
  {
    hide Valid;
    RestStays(w.state.chunks, rs);
    assert rs[0].chunk in w.state.chunks;
    hide DistinctChunks, AllStored;
    RemovalAccounts(s, w, rs[0], f);
    assert Find(w.state.chunks, rs[0].chunk.session, rs[0].chunk.seqNo).Some?;
    hide Accounts;
  }

  // ---------------------------------------------------------------- what is planned

  /** The removals are exactly the chunks of the list for which the limit says so. */
  ghost predicate ArePast(chunks: Chunks, cutoff: real, gone: seq<Removal>) {
    && AllStored(chunks, gone) && DistinctChunks(gone)
    && (forall c :: c in chunks && c.storedAt < cutoff ==> Leaves(c, gone))
    && forall i | 0 <= i < |gone| :: gone[i].chunk.storedAt < cutoff && gone[i].reason == "age"
  }

  lemma PastSkips(c: Chunk, rest: Chunks, cutoff: real, more: seq<Removal>)
    requires c.storedAt >= cutoff && ArePast(rest, cutoff, more)
    ensures ArePast([c] + rest, cutoff, more)
  {
  }

  lemma PastTakes(c: Chunk, rest: Chunks, cutoff: real, more: seq<Removal>)
    requires c.storedAt < cutoff && c !in rest && ArePast(rest, cutoff, more)
    ensures ArePast([c] + rest, cutoff, [Removal(c, "age")] + more)
  {
    var all := [Removal(c, "age")] + more;
    assert forall i | 1 <= i < |all| :: all[i] == more[i - 1];
    assert all[0].chunk == c;
    forall d | d in rest && d.storedAt < cutoff ensures Leaves(d, all) {
      var i :| 0 <= i < |more| && more[i].chunk == d;
      assert all[i + 1].chunk == d;
    }
  }

  lemma {:induction false} ExpiredAre(chunks: Chunks, cutoff: real)
    requires Valid(chunks)
    ensures ArePast(chunks, cutoff, Expired(chunks, cutoff))
  {
    if chunks != [] {
      ValidTail(chunks);
      ExpiredAre(chunks[1..], cutoff);
      var more := Expired(chunks[1..], cutoff);
      assert [chunks[0]] + chunks[1..] == chunks;
      assert [] + more == more;
      hide ArePast, Valid;
      if chunks[0].storedAt < cutoff {
        PastTakes(chunks[0], chunks[1..], cutoff, more);
      } else {
        PastSkips(chunks[0], chunks[1..], cutoff, more);
      }
    }
  }

  /** A cap takes the shortest prefix of the list that brings what is left within it. */
  lemma {:induction false} OverCapIsShortestPrefix(chunks: Chunks, limit: int)
    requires limit >= 0
    ensures var gone := OverCap(chunks, limit);
            && |gone| <= |chunks|
            && (forall i | 0 <= i < |gone| :: gone[i] == Removal(chunks[i], "disk_cap"))
            && Bytes(chunks[|gone|..]) <= limit
            && forall j | 0 <= j < |gone| :: Bytes(chunks[j..]) > limit
  {
    assert chunks[0..] == chunks;
    if Bytes(chunks) > limit && chunks != [] {
      OverCapIsShortestPrefix(chunks[1..], limit);
      var more := OverCap(chunks[1..], limit);
      assert chunks[|more| + 1..] == chunks[1..][|more|..];
      forall j | 1 <= j < |more| + 1 ensures Bytes(chunks[j..]) > limit {
        assert chunks[j..] == chunks[1..][j - 1..];
      }
    }
  }

  lemma {:induction false} OfNodeAre(chunks: Chunks, node: Option<string>)
    requires Valid(chunks)
    ensures Valid(OfNode(chunks, node))
    ensures forall c :: c in OfNode(chunks, node) <==> c in chunks && (node.None? || c.node == node.value)
  {
    if chunks != [] {
      ValidTail(chunks);
      HeadIsFirst(chunks);
      BodyOfHead(chunks);
      OfNodeAre(chunks[1..], node);
      assert [chunks[0]] + chunks[1..] == chunks;
      var more := OfNode(chunks[1..], node);
      assert [] + more == more;
      hide Valid, NotAfter, SameKey;
      ValidConsIf(chunks[0], more);
    }
  }

  lemma ValidConsIf(c: Chunk, rest: Chunks)
    requires Valid(rest) && c.body != [] && forall d :: d in rest ==> !SameKey(c, d) && NotAfter(c, d)
    ensures Valid([c] + rest)
  {
    hide Valid;
    ValidCons(c, rest);
  }

  lemma CapIsPlanned(chunks: Chunks, limit: int, node: Option<string>)
    requires Valid(chunks) && limit >= 0
    ensures var gone := OverCap(OfNode(chunks, node), limit);
            AllStored(chunks, gone) && DistinctChunks(gone)
  {
    var list := OfNode(chunks, node);
    OfNodeAre(chunks, node);
    OverCapIsShortestPrefix(list, limit);
    var gone := OverCap(list, limit);
    hide OverCap, OfNode;
    forall i | 0 <= i < |gone| ensures gone[i].chunk in chunks {
      assert list[i] in list;
    }
    forall i, j | 0 <= i < j < |gone| ensures gone[i].chunk != gone[j].chunk {
      assert !SameKey(list[i], list[j]);
    }
  }

  /** Removing the chunks a cap plans leaves exactly the rest of the node's list. */
  lemma {:induction false} CapLeavesTheRest(s: State, limit: int, node: Option<string>, f: Stamp)
    requires Valid(s.chunks) && limit >= 0
    ensures var list := OfNode(s.chunks, node);
            var gone := OverCap(list, limit);
            |gone| <= |list| && OfNode(RemoveAll(s, gone, f).chunks, node) == list[|gone|..]
    decreases |OfNode(s.chunks, node)|
  {
    var list := OfNode(s.chunks, node);
    var gone := OverCap(list, limit);
    assert list[0..] == list;
    if gone != [] {
      DeleteOldest(s.chunks, node);
      DeleteKeepsValid(s.chunks, list[0].session, list[0].seqNo, node);
      var next := RemoveOne(s, gone[0], f);
      assert next.chunks == Delete(s.chunks, list[0].session, list[0].seqNo) by {
        assert Find(s.chunks, list[0].session, list[0].seqNo).Some?;
      }
      hide Valid, RemoveOne, OfNode;
      CapLeavesTheRest(next, limit, node, f);
      assert gone[1..] == OverCap(list[1..], limit);
      assert list[1..][|gone| - 1..] == list[|gone|..];
    }
  }

  /** Later removals only lower what a node holds. */
  lemma {:induction false} RemoveAllLowers(s: State, rs: seq<Removal>, f: Stamp, node: Option<string>)
    requires Valid(s.chunks)
    ensures Valid(RemoveAll(s, rs, f).chunks)
    ensures Bytes(OfNode(RemoveAll(s, rs, f).chunks, node)) <= Bytes(OfNode(s.chunks, node))
    ensures forall c :: c in RemoveAll(s, rs, f).chunks ==> c in s.chunks
    decreases |rs|
  {
    if rs != [] {
      var key := rs[0].chunk;
      DeleteKeepsValid(s.chunks, key.session, key.seqNo, node);
      forall c | c in RemoveOne(s, rs[0], f).chunks ensures c in s.chunks {
        DeleteKeeps(s.chunks, key.session, key.seqNo, c);
      }
      hide Valid, Bytes, OfNode, Delete;
      RemoveAllLowers(RemoveOne(s, rs[0], f), rs[1..], f, node);
    }
  }

  lemma {:induction false} DeleteTakesOne(chunks: Chunks, session: string, seqNo: nat)
    requires Valid(chunks)
    ensures |Delete(chunks, session, seqNo)| == |chunks| - if Find(chunks, session, seqNo).Some? then 1 else 0
  {
    if chunks != [] {
      ValidTail(chunks);
      HeadIsFirst(chunks);
      DeleteTakesOne(chunks[1..], session, seqNo);
      hide Valid;
      if chunks[0].session == session && chunks[0].seqNo == seqNo {
        DeleteNothing(chunks[1..], session, seqNo);
      }
    }
  }

  /** Whatever is asked to be removed, stored or not and however often, chunks and events together stay
      as many: a gap for each chunk that goes, and for nothing else. */
  lemma {:induction false} GapsBalance(s: State, rs: seq<Removal>, f: Stamp)
    requires Valid(s.chunks) && IdsAreFresh(f)
    ensures var s' := RemoveAll(s, rs, f);
            |s'.chunks| + |s'.log| == |s.chunks| + |s.log| && s.log <= s'.log
    decreases |rs|
  {
    if rs != [] {
      var key := rs[0].chunk;
      DeleteKeepsValid(s.chunks, key.session, key.seqNo, None);
      DeleteTakesOne(s.chunks, key.session, key.seqNo);
      GapIsAppended(s.log, rs[0], f);
      hide Valid, IdsAreFresh, Delete, Find, Gap, Append;
      GapsBalance(RemoveOne(s, rs[0], f), rs[1..], f);
    }
  }

  // ---------------------------------------------------------------- the whole sweep

  lemma CapAccounts(s: State, w: Swept, limit: int, node: Option<string>, f: Stamp)
    requires Valid(s.chunks) && IdsAreFresh(f) && Accounts(s, w, f)
    ensures Accounts(s, SweepCap(w, limit, node, f), f)
  {
    if limit > 0 {
      CapIsPlanned(w.state.chunks, limit, node);
      TakeAccounts(s, w, OverCap(OfNode(w.state.chunks, node), limit), f);
    }
  }

  lemma {:induction false} NodesAccount(s: State, w: Swept, caps: seq<(string, int)>, f: Stamp)
    requires Valid(s.chunks) && IdsAreFresh(f) && Accounts(s, w, f)
    ensures Accounts(s, SweepNodes(w, caps, f), f)
  {
    if caps != [] {
      NodesAccount(s, w, caps[..|caps| - 1], f);
      hide Accounts, SweepCap, Valid, IdsAreFresh;
      CapAccounts(s, SweepNodes(w, caps[..|caps| - 1], f), caps[|caps| - 1].1, Some(caps[|caps| - 1].0), f);
    }
  }

  /** Main result: a sweep removes distinct stored chunks, leaves all others as they were and in
      order, and appends exactly one gap for each removal, in the order of removal, with a
      sequence number no event of the recorder has in that session. */
  lemma EveryRemovalIsRecorded(s: State, settings: Settings, f: Stamp)
    requires Valid(s.chunks) && IdsAreFresh(f)
    ensures Accounts(s, Sweep(s, settings, f), f)
  {
    NobodyLeaves(s.chunks);
    assert s.log + [] == s.log;
    assert Accounts(s, Swept(s, []), f);
    if settings.cutoff.Some? {
      ExpiredAre(s.chunks, settings.cutoff.value);
      TakeAccounts(s, Swept(s, []), Expired(s.chunks, settings.cutoff.value), f);
    }
    var aged := SweepAge(s, settings.cutoff, f);
    CapAccounts(s, aged, settings.cap, None, f);
    hide Accounts, SweepCap;
    NodesAccount(s, SweepCap(aged, settings.cap, None, f), settings.nodeCaps, f);
  }

  /** Main result: the i-th gap of a sweep is an event of the recorder about the i-th removed chunk:
      in its session, on its node and for its principal. */
  lemma GapsNameTheChunks(s: State, settings: Settings, f: Stamp, i: nat)
    requires Valid(s.chunks) && IdsAreFresh(f) && i < |Sweep(s, settings, f).gone|
    ensures var swept := Sweep(s, settings, f);
            && |swept.state.log| == |s.log| + |swept.gone|
            && var gap, gone := swept.state.log[|s.log| + i], swept.gone[i];
               && gap.source == "recorder" && gap.kind == "RetentionGap" && gap.repo.None?
               && gap.session == gone.chunk.session && gap.node == gone.chunk.node && gap.principal == gone.chunk.principal
               && gap.payload == f.payload(gone)
  {
    hide *;
    EveryRemovalIsRecorded(s, settings, f);
    LogAccounts(s, Sweep(s, settings, f), f);
    GapsTell(s.log, Sweep(s, settings, f).gone, f, i);
  }

  lemma LogAccounts(s: State, w: Swept, f: Stamp)
    requires Accounts(s, w, f)
    ensures w.state.log == s.log + Gaps(s.log, w.gone, f)
  {
    hide Valid, AllStored, DistinctChunks, Survivors, UniqueLog;
  }

  lemma {:induction false} GapsTell(log: Log, gone: seq<Removal>, f: Stamp, i: nat)
    requires i < |gone|
    ensures var gap := Gaps(log, gone, f)[i];
            && gap.source == "recorder" && gap.kind == "RetentionGap" && gap.repo.None?
            && gap.session == gone[i].chunk.session && gap.node == gone[i].chunk.node
            && gap.principal == gone[i].chunk.principal && gap.payload == f.payload(gone[i])
  {
    if i < |gone| - 1 {
      GapsTell(log, gone[..|gone| - 1], f, i);
    }
  }

  /** No chunk is older than the cutoff, and no selection holds more than its cap. */
  ghost predicate Within(chunks: Chunks, cutoff: Option<real>, caps: seq<(Option<string>, int)>) {
    && (cutoff.Some? ==> forall c :: c in chunks ==> c.storedAt >= cutoff.value)
    && forall i | 0 <= i < |caps| :: caps[i].1 > 0 ==> Bytes(OfNode(chunks, caps[i].0)) <= caps[i].1
  }

  /** A cap brings its selection within the limit and breaks nothing that held before. */
  lemma CapAddsItself(w: Swept, limit: int, node: Option<string>, f: Stamp, cutoff: Option<real>, caps: seq<(Option<string>, int)>)
    requires Valid(w.state.chunks) && Within(w.state.chunks, cutoff, caps)
    ensures var now := SweepCap(w, limit, node, f).state.chunks;
            Valid(now) && Within(now, cutoff, caps + [(node, limit)])
  {
    var now := SweepCap(w, limit, node, f).state.chunks;
    var all := caps + [(node, limit)];
    if limit > 0 {
      var list := OfNode(w.state.chunks, node);
      CapLeavesTheRest(w.state, limit, node, f);
      OverCapIsShortestPrefix(list, limit);
      forall other: Option<string>
        ensures Valid(now) && Bytes(OfNode(now, other)) <= Bytes(OfNode(w.state.chunks, other))
        ensures forall c :: c in now ==> c in w.state.chunks
      {
        RemoveAllLowers(w.state, OverCap(list, limit), f, other);
      }
      assert Bytes(OfNode(now, node)) <= limit;
      hide OfNode, Bytes, OverCap, RemoveAll, Valid;
      forall i | 0 <= i < |all| && all[i].1 > 0 ensures Bytes(OfNode(now, all[i].0)) <= all[i].1 {
        assert i < |caps| ==> all[i] == caps[i];
      }
    }
  }

  function NodeCaps(caps: seq<(string, int)>): seq<(Option<string>, int)> {
    seq(|caps|, i requires 0 <= i < |caps| => (Some(caps[i].0), caps[i].1))
  }

  lemma {:induction false} NodesAddThemselves(
    w: Swept, caps: seq<(string, int)>, f: Stamp, cutoff: Option<real>, before: seq<(Option<string>, int)>)
    requires Valid(w.state.chunks) && Within(w.state.chunks, cutoff, before)
    ensures var now := SweepNodes(w, caps, f).state.chunks;
            Valid(now) && Within(now, cutoff, before + NodeCaps(caps))
  {
    if caps == [] {
      assert before + NodeCaps(caps) == before;
    } else {
      var init, last := caps[..|caps| - 1], caps[|caps| - 1];
      NodesAddThemselves(w, init, f, cutoff, before);
      hide Valid, Within, SweepCap;
      CapAddsItself(SweepNodes(w, init, f), last.1, Some(last.0), f, cutoff, before + NodeCaps(init));
      assert before + NodeCaps(caps) == (before + NodeCaps(init)) + [(Some(last.0), last.1)];
    }
  }

  /** Main result: after a sweep no chunk is older than the cutoff, and the global cap and every
      positive node cap hold together. */
  lemma SweepHoldsEverything(s: State, settings: Settings, f: Stamp)
    requires Valid(s.chunks) && IdsAreFresh(f)
    ensures var left := Sweep(s, settings, f).state.chunks;
            && (settings.cutoff.Some? ==> forall c :: c in left ==> c.storedAt >= settings.cutoff.value)
            && (settings.cap > 0 ==> Bytes(left) <= settings.cap)
            && forall i | 0 <= i < |settings.nodeCaps| && settings.nodeCaps[i].1 > 0 ::
                 Bytes(OfNode(left, Some(settings.nodeCaps[i].0))) <= settings.nodeCaps[i].1
  {
    var aged := SweepAge(s, settings.cutoff, f);
    AgedIsYoung(s, settings.cutoff, f);
    var none: seq<(Option<string>, int)> := [];
    CapAddsItself(aged, settings.cap, None, f, settings.cutoff, none);
    var capped := SweepCap(aged, settings.cap, None, f);
    assert none + [(None, settings.cap)] == [(None, settings.cap)];
    NodesAddThemselves(capped, settings.nodeCaps, f, settings.cutoff, [(None, settings.cap)]);
    var left := Sweep(s, settings, f).state.chunks;
    var caps := [(None, settings.cap)] + NodeCaps(settings.nodeCaps);
    OfNodeNone(left);
    hide SweepCap, SweepAge, SweepNodes, OfNode, Bytes, Valid, IdsAreFresh;
    assert Within(left, settings.cutoff, caps);
    assert caps[0] == (None, settings.cap);
    forall i | 0 <= i < |settings.nodeCaps| && settings.nodeCaps[i].1 > 0
      ensures Bytes(OfNode(left, Some(settings.nodeCaps[i].0))) <= settings.nodeCaps[i].1
    {
      assert caps[i + 1] == (Some(settings.nodeCaps[i].0), settings.nodeCaps[i].1);
    }
  }

  lemma AgedIsYoung(s: State, cutoff: Option<real>, f: Stamp)
    requires Valid(s.chunks) && IdsAreFresh(f)
    ensures var aged := SweepAge(s, cutoff, f).state.chunks;
            Valid(aged) && Within(aged, cutoff, [])
  {
    NobodyLeaves(s.chunks);
    assert s.log + [] == s.log;
    assert Accounts(s, Swept(s, []), f);
    if cutoff.Some? {
      var gone := Expired(s.chunks, cutoff.value);
      ExpiredAre(s.chunks, cutoff.value);
      TakeAccounts(s, Swept(s, []), gone, f);
      assert [] + gone == gone;
      var left := SweepAge(s, cutoff, f).state.chunks;
      forall c | c in left ensures c.storedAt >= cutoff.value {
        SurvivorsAre(s.chunks, gone, c);
      }
    }
  }
}
