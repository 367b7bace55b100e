/** Retention of transcript chunks (backend/activity_transcript.py): chunks leave by age and
    by byte caps, oldest first, and every chunk that leaves is replaced by a gap event. */
module Retention {
  import opened Common
  import opened ActivityLog

  /** A row of the chunk table with its body. The body is in a file; `Spool` says when that makes no
      difference. */
  datatype Chunk = Chunk(session: string, seqNo: nat, node: string, principal: string, storedAt: real, body: seq<int>)

  datatype PutError = Invalid | Conflicting

  /** The table in the order list_chunks returns it. */
  type Chunks = seq<Chunk>

  predicate SameKey(a: Chunk, b: Chunk) {
    a.session == b.session && a.seqNo == b.seqNo
  }

  predicate NotAfter(a: Chunk, b: Chunk) {
    a.storedAt < b.storedAt || (a.storedAt == b.storedAt && a.seqNo <= b.seqNo)
  }

  predicate Valid(chunks: Chunks) {
    && (forall i, j | 0 <= i < j < |chunks| :: !SameKey(chunks[i], chunks[j]) && NotAfter(chunks[i], chunks[j]))
    && forall i | 0 <= i < |chunks| :: chunks[i].body != []
  }

  function Find(chunks: Chunks, session: string, seqNo: nat): (r: Option<Chunk>)
    ensures r.Some? ==> r.value in chunks && r.value.session == session && r.value.seqNo == seqNo
    ensures r.None? ==> forall c :: c in chunks ==> !(c.session == session && c.seqNo == seqNo)
  {
    if chunks == [] then None
    else if chunks[0].session == session && chunks[0].seqNo == seqNo then Some(chunks[0])
    else Find(chunks[1..], session, seqNo)
  }

  function Insert(chunks: Chunks, c: Chunk): Chunks {
    if chunks == [] || !NotAfter(chunks[0], c) then [c] + chunks else [chunks[0]] + Insert(chunks[1..], c)
  }

  function Delete(chunks: Chunks, session: string, seqNo: nat): Chunks {
    if chunks == [] then []
    else (if chunks[0].session == session && chunks[0].seqNo == seqNo then [] else [chunks[0]])
         + Delete(chunks[1..], session, seqNo)
  }

  /** The chunks of one node, or all of them. */
  function OfNode(chunks: Chunks, node: Option<string>): Chunks {
    if chunks == [] then []
    else (if node.None? || chunks[0].node == node.value then [chunks[0]] else []) + OfNode(chunks[1..], node)
  }

  function Bytes(chunks: Chunks): nat {
    if chunks == [] then 0 else |chunks[0].body| + Bytes(chunks[1..])
  }

  function Put(chunks: Chunks, c: Chunk): (Chunks, Result<Chunk, PutError>) {
    if c.session == "" || c.node == "" || c.principal == "" || c.storedAt <= 0.0 || c.body == [] then
      (chunks, Err(Invalid))
    else
      match Find(chunks, c.session, c.seqNo)
      case Some(row) =>
        if row.body != c.body || row.node != c.node || row.principal != c.principal then (chunks, Err(Conflicting))
        else (chunks, Ok(row))
      case None => (Insert(chunks, c), Ok(c))
  }

  // ---------------------------------------------------------------- removing

  /** A chunk that leaves, and why. */
  datatype Removal = Removal(chunk: Chunk, reason: string)

  /** What a gap event takes from outside: a new identifier, the clock and the payload's encoding. */
  datatype Stamp = Stamp(id: Log -> string, ts: Log -> real, payload: Removal -> string)

  ghost predicate IdsAreFresh(f: Stamp) {
    forall log :: !HasId(log, f.id(log))
  }

  const RECORDER := "recorder"

  /** One more than the recorder's largest sequence number in a session. */
  function NextGapSeq(log: Log, session: string): (n: nat)
    ensures forall e :: e in log && e.source == RECORDER && e.session == session ==> e.seqNo < n
  {
    if log == [] then 0
    else
      var n, e := NextGapSeq(log[..|log| - 1], session), log[|log| - 1];
      if e.source == RECORDER && e.session == session && e.seqNo >= n then e.seqNo + 1 else n
  }

  function Gap(log: Log, r: Removal, f: Stamp): Event {
    var c := r.chunk;
    Event(f.id(log), RECORDER, c.principal, c.node, c.session, NextGapSeq(log, c.session), f.ts(log), None,
          "RetentionGap", f.payload(r))
  }

  datatype State = State(chunks: Chunks, log: Log)

  function RemoveOne(s: State, r: Removal, f: Stamp): State {
    if Find(s.chunks, r.chunk.session, r.chunk.seqNo).None? then s
    else State(Delete(s.chunks, r.chunk.session, r.chunk.seqNo), Append(s.log, Gap(s.log, r, f)).0)
  }

  function RemoveAll(s: State, rs: seq<Removal>, f: Stamp): State
    decreases |rs|
  {
    if rs == [] then s else RemoveAll(RemoveOne(s, rs[0], f), rs[1..], f)
  }

  /** The chunks stored before the cutoff. */
  function Expired(chunks: Chunks, cutoff: real): seq<Removal> {
    if chunks == [] then []
    else (if chunks[0].storedAt < cutoff then [Removal(chunks[0], "age")] else []) + Expired(chunks[1..], cutoff)
  }

  /** The chunks a byte cap takes from the front of the list. */
  function OverCap(chunks: Chunks, limit: int): seq<Removal> {
    if Bytes(chunks) <= limit || chunks == [] then []
    else [Removal(chunks[0], "disk_cap")] + OverCap(chunks[1..], limit)
  }

  /** The cutoff when an age limit is set, the global cap and the caps per node; a cap of
      zero or less is off. */
  datatype Settings = Settings(cutoff: Option<real>, cap: int, nodeCaps: seq<(string, int)>)

  /** A state and the removals that led there. */
  datatype Swept = Swept(state: State, gone: seq<Removal>)

  function Take(s: Swept, rs: seq<Removal>, f: Stamp): Swept {
    Swept(RemoveAll(s.state, rs, f), s.gone + rs)
  }

  function SweepCap(s: Swept, limit: int, node: Option<string>, f: Stamp): Swept {
    if limit <= 0 then s else Take(s, OverCap(OfNode(s.state.chunks, node), limit), f)
  }

  function SweepNodes(s: Swept, caps: seq<(string, int)>, f: Stamp): Swept {
    if caps == [] then s
    else
      var before := SweepNodes(s, caps[..|caps| - 1], f);
      SweepCap(before, caps[|caps| - 1].1, Some(caps[|caps| - 1].0), f)
  }

  function SweepAge(s: State, cutoff: Option<real>, f: Stamp): Swept {
    if cutoff.None? then Swept(s, []) else Take(Swept(s, []), Expired(s.chunks, cutoff.value), f)
  }

  function Sweep(s: State, settings: Settings, f: Stamp): Swept {
    SweepNodes(SweepCap(SweepAge(s, settings.cutoff, f), settings.cap, None, f), settings.nodeCaps, f)
  }

  // ---------------------------------------------------------------- one removal

  lemma {:induction false} DeleteKeeps(chunks: Chunks, session: string, seqNo: nat, c: Chunk)
    ensures c in Delete(chunks, session, seqNo) <==> c in chunks && !(c.session == session && c.seqNo == seqNo)
  {
    if chunks != [] {
      DeleteKeeps(chunks[1..], session, seqNo, c);
    }
  }

  lemma {:induction false} DeleteNothing(chunks: Chunks, session: string, seqNo: nat)
    requires forall c :: c in chunks ==> !(c.session == session && c.seqNo == seqNo)
    ensures Delete(chunks, session, seqNo) == chunks
  {
    if chunks != [] {
      assert chunks[0] in chunks;
      DeleteNothing(chunks[1..], session, seqNo);
    }
  }

  lemma ValidTail(chunks: Chunks)
    requires Valid(chunks) && chunks != []
    ensures Valid(chunks[1..])
    ensures Delete(chunks[1..], chunks[0].session, chunks[0].seqNo) == chunks[1..]
    ensures chunks[0] !in chunks[1..]
  {
    forall c | c in chunks[1..] ensures !SameKey(chunks[0], c) {
      var i :| 0 <= i < |chunks[1..]| && chunks[1..][i] == c;
      assert chunks[i + 1] == c;
    }
    DeleteNothing(chunks[1..], chunks[0].session, chunks[0].seqNo);
  }

  lemma ValidCons(c: Chunk, rest: Chunks)
    requires Valid(rest) && c.body != []
    requires forall d :: d in rest ==> !SameKey(c, d) && NotAfter(c, d)
    ensures Valid([c] + rest)
  {
    var all := [c] + rest;
    assert forall k | 1 <= k < |all| :: all[k] == rest[k - 1] && all[k] in rest;
  }

  lemma HeadIsFirst(chunks: Chunks)
    requires Valid(chunks) && chunks != []
    ensures forall d :: d in chunks[1..] ==> !SameKey(chunks[0], d) && NotAfter(chunks[0], d)
  {
    forall d | d in chunks[1..] ensures !SameKey(chunks[0], d) && NotAfter(chunks[0], d) {
      var i :| 0 <= i < |chunks[1..]| && chunks[1..][i] == d;
      assert chunks[i + 1] == d;
    }
  }

  /** Deleting a row keeps the table ordered and only lowers what it holds. */
  lemma {:induction false} DeleteKeepsValid(chunks: Chunks, session: string, seqNo: nat, node: Option<string>)
    requires Valid(chunks)
    ensures Valid(Delete(chunks, session, seqNo))
    ensures Bytes(OfNode(Delete(chunks, session, seqNo), node)) <= Bytes(OfNode(chunks, node))
  {
    if chunks != [] {
      ValidTail(chunks);
      HeadIsFirst(chunks);
      DeleteKeepsValid(chunks[1..], session, seqNo, node);
      var rest := Delete(chunks[1..], session, seqNo);
      if !(chunks[0].session == session && chunks[0].seqNo == seqNo) {
        forall d | d in rest ensures d in chunks[1..] {
          DeleteKeeps(chunks[1..], session, seqNo, d);
        }
        hide Valid;
        assert Delete(chunks, session, seqNo) == [chunks[0]] + rest;
        BodyOfHead(chunks);
        ValidCons(chunks[0], rest);
        OfNodeCons(chunks[0], rest, node);
        OfNodeCons(chunks[0], chunks[1..], node);
        assert [chunks[0]] + chunks[1..] == chunks;
      } else {
        assert [] + rest == rest;
        OfNodeCons(chunks[0], chunks[1..], node);
        assert [chunks[0]] + chunks[1..] == chunks;
      }
    }
  }

  lemma BodyOfHead(chunks: Chunks)
    requires Valid(chunks) && chunks != []
    ensures chunks[0].body != []
  {
  }

  lemma OfNodeCons(c: Chunk, rest: Chunks, node: Option<string>)
    ensures OfNode([c] + rest, node) == (if node.None? || c.node == node.value then [c] else []) + OfNode(rest, node)
    ensures Bytes(OfNode([c] + rest, node))
            == (if node.None? || c.node == node.value then |c.body| else 0) + Bytes(OfNode(rest, node))
  {
    assert ([c] + rest)[1..] == rest;
    var more := OfNode(rest, node);
    assert ([c] + more)[1..] == more;
    assert [] + more == more;
  }

  /** Without the node's oldest chunk, the node's other chunks are left in order. */
  lemma {:induction false} DeleteOldest(chunks: Chunks, node: Option<string>)
    requires Valid(chunks) && OfNode(chunks, node) != []
    ensures var oldest := OfNode(chunks, node)[0];
            && oldest in chunks
            && OfNode(Delete(chunks, oldest.session, oldest.seqNo), node) == OfNode(chunks, node)[1..]
  {
    var head, tail := chunks[0], chunks[1..];
    ValidTail(chunks);
    HeadIsFirst(chunks);
    assert [head] + tail == chunks;
    hide Valid, NotAfter;
    OfNodeCons(head, tail, node);
    if node.None? || head.node == node.value {
      DeleteCons(head, tail, head.session, head.seqNo);
    } else {
      assert [] + OfNode(tail, node) == OfNode(tail, node);
      DeleteOldest(tail, node);
      var oldest := OfNode(tail, node)[0];
      hide OfNode, Delete;
      DeleteCons(head, tail, oldest.session, oldest.seqNo);
      var less := Delete(tail, oldest.session, oldest.seqNo);
      OfNodeCons(head, less, node);
      assert [] + OfNode(less, node) == OfNode(less, node);
    }
  }

  lemma DeleteCons(c: Chunk, rest: Chunks, session: string, seqNo: nat)
    ensures Delete([c] + rest, session, seqNo)
            == if c.session == session && c.seqNo == seqNo then Delete(rest, session, seqNo)
               else [c] + Delete(rest, session, seqNo)
  {
    assert ([c] + rest)[1..] == rest;
    assert [] + Delete(rest, session, seqNo) == Delete(rest, session, seqNo);
  }

  lemma OfNodeNone(chunks: Chunks)
    ensures OfNode(chunks, None) == chunks
  {
  }

  /** A gap is always accepted by the log: its slot is free and its identifier new. */
  lemma GapIsAppended(log: Log, r: Removal, f: Stamp)
    requires IdsAreFresh(f)
    ensures Append(log, Gap(log, r, f)) == (log + [Gap(log, r, f)], Ok(Gap(log, r, f)))
    ensures UniqueLog(log) ==> UniqueLog(log + [Gap(log, r, f)])
  {
    var gap := Gap(log, r, f);
    assert !HasId(log, f.id(log));
    assert FindSlot(log, gap).None?;
    forall i | 0 <= i < |log| ensures !SameSlot(log[i], gap) && log[i].id != gap.id {
      assert log[i] in log;
    }
  }

  // ---------------------------------------------------------------- the classes

  class TranscriptChunkStore {
    var rows: Chunks

    constructor ()
      ensures rows == []
    {
      rows := [];
    }

    method PutChunk(c: Chunk) returns (r: Result<Chunk, PutError>)
      requires Valid(rows)
      modifies this
      ensures (rows, r) == Put(old(rows), c)
      ensures Valid(rows)
    {
      if c.session == "" || c.node == "" || c.principal == "" || c.storedAt <= 0.0 || c.body == [] {
        return Err(Invalid);
      }
      var row := Find(rows, c.session, c.seqNo);
      if row.Some? {
        if row.value.body != c.body || row.value.node != c.node || row.value.principal != c.principal {
          return Err(Conflicting);
        }
        return Ok(row.value);
      }
      InsertKeepsValid(rows, c);
      rows := Insert(rows, c);
      return Ok(c);
    }

    method DeleteChunk(session: string, seqNo: nat) returns (bytes: nat)
      modifies this
      ensures rows == Delete(old(rows), session, seqNo)
      ensures bytes == if Find(old(rows), session, seqNo).None? then 0 else |Find(old(rows), session, seqNo).value.body|
    {
      var row := Find(rows, session, seqNo);
      if row.None? {
        DeleteNothing(rows, session, seqNo);
        return 0;
      }
      rows := Delete(rows, session, seqNo);
      return |row.value.body|;
    }
  }

  lemma {:induction false} InsertKeepsValid(chunks: Chunks, c: Chunk)
    requires Valid(chunks) && c.body != []
    requires forall d :: d in chunks ==> !SameKey(c, d)
    ensures Valid(Insert(chunks, c))
    ensures forall d :: d in Insert(chunks, c) <==> d in chunks || d == c
  {
    if chunks == [] {
    } else {
      ValidTail(chunks);
      HeadIsFirst(chunks);
      BodyOfHead(chunks);
      assert [chunks[0]] + chunks[1..] == chunks;
      if NotAfter(chunks[0], c) {
        InsertKeepsValid(chunks[1..], c);
        hide Valid;
        var rest := Insert(chunks[1..], c);
        assert chunks[0] in chunks;
        assert !SameKey(chunks[0], c);
        assert forall d :: d in rest ==> d in chunks[1..] || d == c;
        hide Insert, NotAfter, SameKey;
        ValidCons(chunks[0], rest);
      } else {
        hide Valid, Insert;
        forall d | d in chunks ensures !SameKey(c, d) && NotAfter(c, d) {
          assert d == chunks[0] || d in chunks[1..];
        }
        ValidCons(c, chunks);
      }
    }
  }

  method RemoveChunk(store: TranscriptChunkStore, activity: ActivityStore, r: Removal, f: Stamp) returns (removed: bool)
    requires IdsAreFresh(f) && Valid(store.rows)
    modifies store, activity`log
    ensures State(store.rows, activity.log) == RemoveOne(old(State(store.rows, activity.log)), r, f)
    ensures removed == Find(old(store.rows), r.chunk.session, r.chunk.seqNo).Some?
  {
    ghost var before := store.rows;
    var deleted := store.DeleteChunk(r.chunk.session, r.chunk.seqNo);
    if deleted == 0 {
      DeleteNothing(before, r.chunk.session, r.chunk.seqNo);
      return false;
    }
    var gap := Gap(activity.log, r, f);
    GapIsAppended(activity.log, r, f);
    var answer := activity.AppendEvent(gap);
    return true;
  }

  method EnforceByteCap(
    store: TranscriptChunkStore, activity: ActivityStore, limit: int, node: Option<string>, f: Stamp, ghost gone: seq<Removal>)
    returns (removed: nat)
    requires IdsAreFresh(f) && Valid(store.rows) && limit > 0
    modifies store, activity`log
    ensures Valid(store.rows)
    ensures var was := Swept(old(State(store.rows, activity.log)), gone);
            var now := SweepCap(was, limit, node, f);
            State(store.rows, activity.log) == now.state && removed == |now.gone| - |gone|
  {
    removed := 0;
    ghost var was := State(store.rows, activity.log);
    ghost var all := OverCap(OfNode(was.chunks, node), limit);
    while Bytes(OfNode(store.rows, node)) > limit
      invariant Valid(store.rows)
      invariant var left := OverCap(OfNode(store.rows, node), limit);
                RemoveAll(State(store.rows, activity.log), left, f) == RemoveAll(was, all, f) && removed + |left| == |all|
      decreases |OfNode(store.rows, node)|
    {
      var chunks := OfNode(store.rows, node);
      if chunks == [] {
        break;
      }
      DeleteOldest(store.rows, node);
      DeleteKeepsValid(store.rows, chunks[0].session, chunks[0].seqNo, node);
      var ok := RemoveChunk(store, activity, Removal(chunks[0], "disk_cap"), f);
      if !ok {
        break;
      }
      removed := removed + 1;
    }
  }

  method RemoveExpired(store: TranscriptChunkStore, activity: ActivityStore, cutoff: real, f: Stamp) returns (removed: nat)
    requires IdsAreFresh(f) && Valid(store.rows)
    modifies store, activity`log
    ensures Valid(store.rows)
    ensures var was := old(State(store.rows, activity.log));
            var gone := Expired(was.chunks, cutoff);
            State(store.rows, activity.log) == RemoveAll(was, gone, f) && removed == |gone|
  {
    removed := 0;
    var list := store.rows;
    ghost var was := State(store.rows, activity.log);
    assert list[0..] == list;
    for k := 0 to |list|
      invariant Valid(store.rows) && forall i | k <= i < |list| :: list[i] in store.rows
      invariant var left := Expired(list[k..], cutoff);
                RemoveAll(State(store.rows, activity.log), left, f) == RemoveAll(was, Expired(list, cutoff), f)
                && removed + |left| == |Expired(list, cutoff)|
    {
      assert list[k..][1..] == list[k + 1..];
      var more := Expired(list[k + 1..], cutoff);
      assert [] + more == more;
      if list[k].storedAt < cutoff {
        assert ([Removal(list[k], "age")] + more)[1..] == more;
        assert Find(store.rows, list[k].session, list[k].seqNo).Some?;
        forall i | k < i < |list| ensures list[i] in Delete(store.rows, list[k].session, list[k].seqNo) {
          assert !SameKey(list[k], list[i]);
          DeleteKeeps(store.rows, list[k].session, list[k].seqNo, list[i]);
        }
        DeleteKeepsValid(store.rows, list[k].session, list[k].seqNo, None);
        var ok := RemoveChunk(store, activity, Removal(list[k], "age"), f);
        if ok {
          removed := removed + 1;
        }
      }
    }
  }

  method RunTranscriptRetention(store: TranscriptChunkStore, activity: ActivityStore, settings: Settings, f: Stamp)
    returns (removed: nat)
    requires IdsAreFresh(f) && Valid(store.rows)
    modifies store, activity`log
    ensures Valid(store.rows)
    ensures var swept := Sweep(old(State(store.rows, activity.log)), settings, f);
            State(store.rows, activity.log) == swept.state && removed == |swept.gone|
  {
    hide RemoveAll, Expired, OverCap, IdsAreFresh, Valid;
    removed := 0;
    ghost var was := State(store.rows, activity.log);
    ghost var swept := SweepAge(was, settings.cutoff, f);
    if settings.cutoff.Some? {
      removed := RemoveExpired(store, activity, settings.cutoff.value, f);
    }
    if settings.cap > 0 {
      var pruned := EnforceByteCap(store, activity, settings.cap, None, f, swept.gone);
      removed := removed + pruned;
    }
    swept := SweepCap(swept, settings.cap, None, f);
    hide SweepCap, SweepAge;
    for i := 0 to |settings.nodeCaps|
      invariant Valid(store.rows)
      invariant var now := SweepNodes(swept, settings.nodeCaps[..i], f);
                State(store.rows, activity.log) == now.state && removed == |now.gone|
    {
      ghost var now := SweepNodes(swept, settings.nodeCaps[..i], f);
      assert settings.nodeCaps[..i + 1][..i] == settings.nodeCaps[..i];
      var (node, limit) := settings.nodeCaps[i];
      CapOff(now, limit, Some(node), f);
      if limit <= 0 {
        continue;
      }
      var pruned := EnforceByteCap(store, activity, limit, Some(node), f, now.gone);
      removed := removed + pruned;
    }
    assert settings.nodeCaps[..|settings.nodeCaps|] == settings.nodeCaps;
  }

  lemma CapOff(s: Swept, limit: int, node: Option<string>, f: Stamp)
    ensures limit <= 0 ==> SweepCap(s, limit, node, f) == s
  {
  }
}
