/** Runs of the encrypted transcript store: what reading returns after any operations, after an
    edit of a chunk file, and after shredding. */
module EncryptedRuns {
  import opened Common
  import opened EncryptedStore
  import Text

  datatype Op =
    | CreateOp(id: string, principals: seq<string>, ttl: int, now: real, key: nat)
    | AppendOp(id: string, plaintext: Bytes, now: real, nonce: Bytes)
    | ShredOp(id: string, reason: string)
    | PurgeOp(listing: seq<string>, now: real)

  type Run = seq<Op>

  const EMPTY := Store(map[], map[], [])

  /** Nonces are drawn with the cipher's length. */
  predicate NoncesFit(h: Run) {
    forall i | 0 <= i < |h| && h[i].AppendOp? :: |h[i].nonce| == NONCE_LEN
  }

  function Step(cfg: Config, s: Store, op: Op): Store {
    match op
    case CreateOp(id, principals, ttl, now, key) => Create(cfg, s, id, principals, ttl, now, key).0
    case AppendOp(id, plaintext, now, nonce) => EncryptedStore.Append(cfg, s, id, plaintext, now, nonce).0
    case ShredOp(id, reason) => CryptoShred(s, id, reason).0
    case PurgeOp(listing, now) => Purge(cfg, s, listing, now).0
  }

  function After(cfg: Config, h: Run): Store {
    if h == [] then EMPTY else Step(cfg, After(cfg, h[..|h| - 1]), h[|h| - 1])
  }

  /** Whether an operation appends to a thread, and does. */
  predicate Appends(cfg: Config, s: Store, op: Op) {
    op.AppendOp? && EncryptedStore.Append(cfg, s, op.id, op.plaintext, op.now, op.nonce).1.Ok?
  }

  /** The plaintexts a run appended to a thread, in order. */
  function Appended(cfg: Config, h: Run, id: string): seq<Bytes> {
    if h == [] then []
    else
      var init, op := h[..|h| - 1], h[|h| - 1];
      Appended(cfg, init, id) + if Appends(cfg, After(cfg, init), op) && op.id == id then [op.plaintext] else []
  }

  /** The ciphertexts a run produced. */
  function Produced(cfg: Config, h: Run): seq<Ciphertext> {
    if h == [] then []
    else
      var init, op := h[..|h| - 1], h[|h| - 1];
      var s := After(cfg, init);
      Produced(cfg, init)
      + if Appends(cfg, s, op) then
          [Sealed(s.meta[op.id].key, op.nonce, op.id, NonBlank(s.chunks[op.id]), op.plaintext)]
        else []
  }

  /** A file that holds the plaintexts, each sealed for its place. */
  predicate Holds(f: File, key: nat, id: string, ps: seq<Bytes>) {
    |f| == |ps| && forall i | 0 <= i < |f| :: IsRecord(f[i], key, id, i, ps[i])
  }

  predicate IsRecord(line: Line, key: nat, id: string, i: nat, plaintext: Bytes) {
    line.Record? && |line.nonce| == NONCE_LEN && line == Record(i, line.nonce, Sealed(key, line.nonce, id, i, plaintext))
  }

  /** Every ciphertext made for the thread stands at its place in the file. */
  predicate AllKept(f: File, id: string, cts: seq<Ciphertext>) {
    forall j | 0 <= j < |cts| && cts[j].Sealed? && cts[j].thread == id ::
      0 <= cts[j].seqNo < |f| && f[cts[j].seqNo].Record? && f[cts[j].seqNo].ct == cts[j]
  }

  /** What a run keeps about one thread: it is live with its whole log, or shredded, or new. */
  predicate Inv(s: Store, id: string, ps: seq<Bytes>, cts: seq<Ciphertext>) {
    if id in s.meta then
      && id !in s.tombstones && ValidId(id) && id in s.chunks
      && Holds(s.chunks[id], s.meta[id].key, id, ps) && AllKept(s.chunks[id], id, cts)
    else if id in s.tombstones then id !in s.chunks
    else id !in s.chunks && ps == [] && AllKept([], id, cts)
  }

  // ---------------------------------------------------------------- steps

  lemma {:induction false} NothingBlank(f: File, key: nat, id: string, ps: seq<Bytes>)
    requires Holds(f, key, id, ps)
    ensures NonBlank(f) == |f|
  {
    if f != [] {
      NothingBlank(f[..|f| - 1], key, id, ps[..|f| - 1]);
    }
  }

  lemma AppendKeepsInv(cfg: Config, s: Store, op: Op, id: string, ps: seq<Bytes>, cts: seq<Ciphertext>)
    requires Inv(s, id, ps, cts) && Appends(cfg, s, op) && |op.nonce| == NONCE_LEN
    ensures var ct := Sealed(s.meta[op.id].key, op.nonce, op.id, NonBlank(s.chunks[op.id]), op.plaintext);
            Inv(Step(cfg, s, op), id, ps + if op.id == id then [op.plaintext] else [], cts + [ct])
  {
    hide ValidId, NonBlank;
    if op.id == id {
      NothingBlank(s.chunks[id], s.meta[id].key, id, ps);
    } else {
      assert ps + [] == ps;
    }
  }

  lemma OtherStepKeepsInv(cfg: Config, s: Store, op: Op, id: string, ps: seq<Bytes>, cts: seq<Ciphertext>)
    requires Inv(s, id, ps, cts) && !Appends(cfg, s, op)
    ensures Inv(Step(cfg, s, op), id, ps, cts)
  {
    hide ValidId, Cleaned, Overdue, NonBlank, Holds;
    if op.PurgeOp? && cfg.enabled {
      ShredAllAre(s, Overdue(s, op.listing, op.now), id);
      hide ShredAll;
    }
    if op.CreateOp? && op.id == id {
      assert AllKept([], id, cts) ==> AllKept([], id, cts);
      NoLines(if id in s.meta then s.meta[id].key else op.key, id);
    }
  }

  lemma NoLines(key: nat, id: string)
    ensures Holds([], key, id, [])
  {
  }

  lemma {:induction false} RunKeepsInv(cfg: Config, h: Run, id: string)
    requires NoncesFit(h)
    ensures Inv(After(cfg, h), id, Appended(cfg, h, id), Produced(cfg, h))
  {
    if h != [] {
      var init, op := h[..|h| - 1], h[|h| - 1];
      RunKeepsInv(cfg, init, id);
      var s := After(cfg, init);
      hide Inv, Step, NonBlank;
      if Appends(cfg, s, op) {
        hide Appends;
        AppendKeepsInv(cfg, s, op, id, Appended(cfg, init, id), Produced(cfg, init));
      } else {
        hide Appends;
        OtherStepKeepsInv(cfg, s, op, id, Appended(cfg, init, id), Produced(cfg, init));
        assert Appended(cfg, init, id) + [] == Appended(cfg, init, id);
        assert Produced(cfg, init) + [] == Produced(cfg, init);
      }
    }
  }

  // ---------------------------------------------------------------- reading

  predicate MayRead(cfg: Config, s: Store, id: string, principal: string, now: real) {
    && cfg.enabled && cfg.available && Text.Strip(principal) != "" && id in s.meta
    && Allows(cfg, id, Text.Strip(principal), s.meta[id].principals) && now < s.meta[id].expiresAt
  }

  /** A file opens exactly when each line is the record sealed for its place. */
  lemma {:induction false} OpensIff(f: File, key: nat, id: string, ps: seq<Bytes>)
    ensures OpenAll(f, key, id) == Ok(ps) <==> Holds(f, key, id, ps)
    ensures OpenAll(f, key, id).Err? ==> OpenAll(f, key, id) == Err(Integrity)
  {
    if f != [] {
      var init, line := f[..|f| - 1], f[|f| - 1];
      if ps == [] {
      } else {
        OpensIff(init, key, id, ps[..|ps| - 1]);
        assert ps == ps[..|ps| - 1] + [ps[|ps| - 1]];
      }
    }
  }

  /** Main result: after any run, an authorized and unexpired reader of a live thread gets
      exactly the appended plaintexts in order. */
  lemma ReadReturnsAppended(cfg: Config, h: Run, id: string, principal: string, now: real)
    requires NoncesFit(h) && MayRead(cfg, After(cfg, h), id, principal, now)
    ensures Read(cfg, After(cfg, h), id, principal, now) == Ok(Appended(cfg, h, id))
  {
    RunKeepsInv(cfg, h, id);
    var s := After(cfg, h);
    OpensIff(s.chunks[id], s.meta[id].key, id, Appended(cfg, h, id));
    hide After, Appended, ValidId, OpenAll, Holds, AllKept;
  }

  /** An edit of a file that forges nothing: what it holds under the thread's key was produced
      by the store. */
  predicate ForgesNothing(edited: File, key: nat, cts: seq<Ciphertext>) {
    forall i | 0 <= i < |edited| && edited[i].Record? && edited[i].ct.Sealed? && edited[i].ct.key == key :: edited[i].ct in cts
  }

  /** Main result: however a chunk file is edited without forging, the read succeeds exactly
      when the file is a prefix of what it was, and then returns that prefix of the plaintexts;
      otherwise it fails as an integrity error. */
  lemma EditedFileReadsPrefixOrFails(cfg: Config, h: Run, id: string, principal: string, now: real, edited: File)
    requires NoncesFit(h) && MayRead(cfg, After(cfg, h), id, principal, now)
    requires ForgesNothing(edited, After(cfg, h).meta[id].key, Produced(cfg, h))
    ensures var s := After(cfg, h);
            id in s.chunks &&
            Read(cfg, s.(chunks := s.chunks[id := edited]), id, principal, now)
            == if edited <= s.chunks[id] && |edited| <= |Appended(cfg, h, id)| then Ok(Appended(cfg, h, id)[..|edited|])
               else Err(Integrity)
  {
    RunKeepsInv(cfg, h, id);
    var s := After(cfg, h);
    var f, key, ps := s.chunks[id], s.meta[id].key, Appended(cfg, h, id);
    hide After, Appended, ValidId, OpenAll;
    EditedOpens(f, edited, key, id, ps, Produced(cfg, h));
    hide Holds, AllKept, ForgesNothing;
  }

  lemma EditedOpens(f: File, edited: File, key: nat, id: string, ps: seq<Bytes>, cts: seq<Ciphertext>)
    requires Holds(f, key, id, ps) && AllKept(f, id, cts) && ForgesNothing(edited, key, cts)
    ensures OpenAll(edited, key, id)
            == if edited <= f && |edited| <= |ps| then Ok(ps[..|edited|]) else Err(Integrity)
  {
    if edited <= f {
      PrefixHolds(f, edited, key, id, ps);
      OpensIff(edited, key, id, ps[..|edited|]);
    } else if OpenAll(edited, key, id).Ok? {
      var qs := OpenAll(edited, key, id).value;
      OpensIff(edited, key, id, qs);
      HeldIsPrefix(f, edited, key, id, ps, qs, cts);
      assert false;
    } else {
      OpensIff(edited, key, id, ps);
    }
  }

  lemma PrefixHolds(f: File, edited: File, key: nat, id: string, ps: seq<Bytes>)
    requires Holds(f, key, id, ps) && edited <= f
    ensures Holds(edited, key, id, ps[..|edited|])
  {
    assert forall i | 0 <= i < |edited| :: edited[i] == f[i];
  }

  lemma HeldIsPrefix(f: File, edited: File, key: nat, id: string, ps: seq<Bytes>, qs: seq<Bytes>, cts: seq<Ciphertext>)
    requires Holds(f, key, id, ps) && AllKept(f, id, cts) && ForgesNothing(edited, key, cts) && Holds(edited, key, id, qs)
    ensures edited <= f
  {
    forall i | 0 <= i < |edited| ensures i < |f| && edited[i] == f[i] {
      HeldIsOriginal(f, edited, key, id, ps, qs, cts, i);
    }
    if edited != [] {
      HeldIsOriginal(f, edited, key, id, ps, qs, cts, |edited| - 1);
    }
  }

  lemma HeldIsOriginal(
    f: File, edited: File, key: nat, id: string, ps: seq<Bytes>, qs: seq<Bytes>, cts: seq<Ciphertext>, i: nat)
    requires Holds(f, key, id, ps) && AllKept(f, id, cts) && ForgesNothing(edited, key, cts) && Holds(edited, key, id, qs)
    requires i < |edited|
    ensures i < |f| && edited[i] == f[i]
  {
    assert IsRecord(edited[i], key, id, i, qs[i]);
    var ct := edited[i].ct;
    assert ct in cts;
    var j :| 0 <= j < |cts| && cts[j] == ct;
    assert 0 <= cts[j].seqNo < |f| && f[cts[j].seqNo].ct == cts[j];
    assert IsRecord(f[i], key, id, i, ps[i]);
  }

  /** Main result: whatever a chunk file is edited to without forging, the next append is accepted,
      and afterwards reading succeeds, with the new chunk after what was left, if and only if the
      edited file was a prefix of the original; otherwise it fails as an integrity error. */
  lemma AppendAfterEditIff(
    cfg: Config, h: Run, id: string, principal: string, now: real, edited: File, plaintext: Bytes, nonce: Bytes)
    requires NoncesFit(h) && MayRead(cfg, After(cfg, h), id, principal, now)
    requires ForgesNothing(edited, After(cfg, h).meta[id].key, Produced(cfg, h))
    requires plaintext != [] && |nonce| == NONCE_LEN
    ensures var s := After(cfg, h);
            var (again, r) := EncryptedStore.Append(cfg, s.(chunks := s.chunks[id := edited]), id, plaintext, now, nonce);
            && id in s.chunks && r == Ok(NonBlank(edited))
            && Read(cfg, again, id, principal, now)
               == if edited <= s.chunks[id] && |edited| <= |Appended(cfg, h, id)|
                  then Ok(Appended(cfg, h, id)[..|edited|] + [plaintext]) else Err(Integrity)
  {
    RunKeepsInv(cfg, h, id);
    var s := After(cfg, h);
    hide After, Appended, ValidId, OpenAll, NonBlank;
    EditedThenAppended(s.chunks[id], edited, s.meta[id].key, id, Appended(cfg, h, id), Produced(cfg, h), plaintext, nonce);
    hide Holds, AllKept, ForgesNothing;
  }

  lemma EditedThenAppended(
    f: File, edited: File, key: nat, id: string, ps: seq<Bytes>, cts: seq<Ciphertext>, plaintext: Bytes, nonce: Bytes)
    requires Holds(f, key, id, ps) && AllKept(f, id, cts) && ForgesNothing(edited, key, cts) && |nonce| == NONCE_LEN
    ensures var n := NonBlank(edited);
            OpenAll(edited + [Record(n, nonce, Sealed(key, nonce, id, n, plaintext))], key, id)
            == if edited <= f && |edited| <= |ps| then Ok(ps[..|edited|] + [plaintext]) else Err(Integrity)
  {
    hide *;
    var n := NonBlank(edited);
    var line := Record(n, nonce, Sealed(key, nonce, id, n, plaintext));
    EditedOpens(f, edited, key, id, ps, cts);
    if edited <= f {
      SameLength(f, key, id, ps);
      var left := ps[..|edited|];
      PrefixHolds(f, edited, key, id, ps);
      NothingBlank(edited, key, id, left);
      HoldsSnoc(edited, key, id, left, plaintext, nonce);
      OpensIff(edited + [line], key, id, left + [plaintext]);
    } else {
      assert (edited + [line])[..|edited|] == edited;
      OpenFails(edited + [line], |edited|, key, id);
    }
  }

  lemma SameLength(f: File, key: nat, id: string, ps: seq<Bytes>)
    requires Holds(f, key, id, ps)
    ensures |f| == |ps|
  {
  }

  lemma HoldsSnoc(f: File, key: nat, id: string, ps: seq<Bytes>, plaintext: Bytes, nonce: Bytes)
    requires Holds(f, key, id, ps) && |nonce| == NONCE_LEN
    ensures Holds(f + [Record(|f|, nonce, Sealed(key, nonce, id, |f|, plaintext))], key, id, ps + [plaintext])
  {
  }

  /** An edit that a reader cannot notice: after the file is cut back and another chunk is
      appended, the read succeeds, and so it does with the old chunk put back in its place. */
  lemma CutAndAppendIsNotNoticed(
    cfg: Config, h: Run, id: string, principal: string, now: real, n: nat, plaintext: Bytes, nonce: Bytes)
    requires NoncesFit(h) && MayRead(cfg, After(cfg, h), id, principal, now)
    requires n < |Appended(cfg, h, id)| && plaintext != [] && |nonce| == NONCE_LEN
    ensures var s := After(cfg, h);
            && id in s.chunks && n < |s.chunks[id]|
            && var cut := s.(chunks := s.chunks[id := s.chunks[id][..n]]);
            var (again, r) := EncryptedStore.Append(cfg, cut, id, plaintext, now, nonce);
            && r == Ok(n)
            && Read(cfg, again, id, principal, now) == Ok(Appended(cfg, h, id)[..n] + [plaintext])
            && Read(cfg, s.(chunks := s.chunks[id := s.chunks[id][..n + 1]]), id, principal, now)
               == Ok(Appended(cfg, h, id)[..n + 1])
  {
    RunKeepsInv(cfg, h, id);
    var s := After(cfg, h);
    var f, key, ps := s.chunks[id], s.meta[id].key, Appended(cfg, h, id);
    hide After, Appended, ValidId, OpenAll, AllKept, NonBlank;
    PrefixHolds(f, f[..n], key, id, ps);
    PrefixHolds(f, f[..n + 1], key, id, ps);
    NothingBlank(f[..n], key, id, ps[..n]);
    OpensIff(f[..n + 1], key, id, ps[..n + 1]);
    var more := f[..n] + [Record(n, nonce, Sealed(key, nonce, id, n, plaintext))];
    assert Holds(more, key, id, ps[..n] + [plaintext]);
    OpensIff(more, key, id, ps[..n] + [plaintext]);
    hide Holds;
  }

  // ---------------------------------------------------------------- shredding

  lemma StepKeepsTombstone(cfg: Config, s: Store, op: Op, id: string)
    requires id in s.tombstones
    ensures id in Step(cfg, s, op).tombstones
  {
    hide ValidId, Cleaned, Overdue;
    if op.PurgeOp? && cfg.enabled {
      ShredAllAre(s, Overdue(s, op.listing, op.now), id);
    }
  }

  lemma {:induction false} RunKeepsTombstone(cfg: Config, h: Run, more: Run, id: string)
    requires id in After(cfg, h).tombstones
    ensures id in After(cfg, h + more).tombstones
  {
    if more == [] {
      assert h + more == h;
    } else {
      var init := more[..|more| - 1];
      assert (h + more)[..|h + more| - 1] == h + init;
      RunKeepsTombstone(cfg, h, init, id);
      StepKeepsTombstone(cfg, After(cfg, h + init), more[|more| - 1], id);
    }
  }

  /** Main result: once a thread is shredded its key and chunks are gone, and after whatever
      follows it can be neither read nor appended to nor created again. */
  lemma ShreddedIsForever(
    cfg: Config, h: Run, more: Run, id: string, principal: string, principals: seq<string>, ttl: int, now: real,
    key: nat, plaintext: Bytes, nonce: Bytes)
    requires NoncesFit(h + more) && id in After(cfg, h).tombstones
    ensures var s := After(cfg, h + more);
            && id in s.tombstones && id !in s.meta && id !in s.chunks
            && var (s', appended) := EncryptedStore.Append(cfg, s, id, plaintext, now, nonce);
            var (s'', created) := Create(cfg, s, id, principals, ttl, now, key);
            && Read(cfg, s, id, principal, now).Err? && appended.Err? && created.Err? && s' == s && s'' == s
            && (cfg.enabled && ValidId(id) ==>
                  && (Text.Strip(principal) != "" ==> Read(cfg, s, id, principal, now) == Err(Shredded))
                  && (plaintext != [] ==> appended == Err(Shredded))
                  && (Cleaned(principals) != {} && 0 < ttl <= cfg.maxTtl ==> created == Err(Shredded)))
  {
    RunKeepsTombstone(cfg, h, more, id);
    RunKeepsInv(cfg, h + more, id);
    hide After, Appended, Produced, ValidId, Cleaned;
  }
}
