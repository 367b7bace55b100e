/** What a caller of the encrypted transcript store is told, as a function of the operations so far
    and nothing else: who created a thread for whom and until when, what was appended, and whether
    it was shredded. */
module EncryptedLedger {
  import opened Common
  import opened EncryptedStore
  import opened EncryptedRuns
  import Text

  /** A thread as its history tells it: for whom it was created, when and for how long, and what
      was appended since. */
  datatype Life = Unknown | Live(principals: seq<string>, at: real, ttl: int, log: seq<Bytes>) | Gone

  predicate IsName(principals: seq<string>, n: string) {
    n != "" && exists i | 0 <= i < |principals| :: Text.Strip(principals[i]) == n
  }

  ghost predicate AreNames(principals: seq<string>, names: set<string>) {
    forall n :: n in names <==> IsName(principals, n)
  }

  predicate Named(principals: seq<string>) {
    exists i | 0 <= i < |principals| :: Text.Strip(principals[i]) != ""
  }

  function Lived(cfg: Config, life: Life, id: string, op: Op): Life {
    match op
    case CreateOp(i, principals, ttl, now, _) =>
      if i == id && life.Unknown? && ValidId(id) && cfg.enabled && cfg.available && Named(principals) && 0 < ttl <= cfg.maxTtl
      then Live(principals, now, ttl, []) else life
    case AppendOp(i, plaintext, now, _) =>
      if i == id && life.Live? && cfg.enabled && cfg.available && plaintext != [] && now < life.at + life.ttl as real
      then life.(log := life.log + [plaintext]) else life
    case ShredOp(i, reason) => if i == id && ValidId(id) && Text.Strip(reason) != "" then Gone else life
    case PurgeOp(listing, now) =>
      if id in listing && life.Live? && cfg.enabled && now >= life.at + life.ttl as real then Gone else life
  }

  function LifeAfter(cfg: Config, h: Run, id: string): Life {
    if h == [] then Unknown else Lived(cfg, LifeAfter(cfg, h[..|h| - 1], id), id, h[|h| - 1])
  }

  /** The store holds of a thread what its history says. */
  predicate Agrees(s: Store, id: string, life: Life) {
    match life
    case Unknown => id !in s.meta && id !in s.chunks && id !in s.tombstones
    case Gone => id !in s.meta && id !in s.chunks && id in s.tombstones
    case Live(principals, at, ttl, _) =>
      && id in s.meta && id in s.chunks && id !in s.tombstones && ValidId(id)
      && s.meta[id].principals == Cleaned(principals) && s.meta[id].expiresAt == at + ttl as real
  }

  lemma NamedIff(principals: seq<string>)
    ensures Named(principals) <==> Cleaned(principals) != {}
  {
    if Named(principals) {
      var i :| 0 <= i < |principals| && Text.Strip(principals[i]) != "";
      assert Text.Strip(principals[i]) in Cleaned(principals);
    } else {
      assert forall p :: p in principals ==> Text.Strip(p) == "";
    }
  }

  lemma StepAgrees(cfg: Config, s: Store, op: Op, id: string, life: Life)
    requires Agrees(s, id, life)
    ensures Agrees(Step(cfg, s, op), id, Lived(cfg, life, id, op))
  {
    hide ValidId, Cleaned, Named, Overdue, NonBlank;
    match op
    case CreateOp(_, principals, _, _, _) => NamedIff(principals);
    case AppendOp(_, _, _, _) =>
    case ShredOp(_, _) =>
    case PurgeOp(listing, now) =>
      OverdueAre(s, listing, now, id);
      ShredAllAre(s, Overdue(s, listing, now), id);
      hide ShredAll;
  }

  lemma AppendsIff(cfg: Config, s: Store, op: Op, id: string, life: Life)
    requires Agrees(s, id, life) && op.AppendOp? && op.id == id
    ensures Appends(cfg, s, op)
            <==> life.Live? && cfg.enabled && cfg.available && op.plaintext != [] && op.now < life.at + life.ttl as real
  {
    hide ValidId, Cleaned, NonBlank;
  }

  lemma {:induction false} RunAgrees(cfg: Config, h: Run, id: string)
    ensures Agrees(After(cfg, h), id, LifeAfter(cfg, h, id))
    ensures LifeAfter(cfg, h, id).Unknown? ==> Appended(cfg, h, id) == []
    ensures LifeAfter(cfg, h, id).Live? ==> Appended(cfg, h, id) == LifeAfter(cfg, h, id).log
  {
    if h != [] {
      var init, op := h[..|h| - 1], h[|h| - 1];
      RunAgrees(cfg, init, id);
      StepAgrees(cfg, After(cfg, init), op, id, LifeAfter(cfg, init, id));
      if op.AppendOp? && op.id == id {
        AppendsIff(cfg, After(cfg, init), op, id, LifeAfter(cfg, init, id));
      }
      hide Agrees, Step, Named;
      assert Appended(cfg, init, id) + [] == Appended(cfg, init, id);
    }
  }

  /** The caller is one of the principals the thread was created for, or the authorizer, told who
      they are, accepts it. */
  ghost predicate Accepted(cfg: Config, id: string, principals: seq<string>, caller: string) {
    if cfg.authorizer.None? then IsName(principals, caller)
    else
      exists names :: AreNames(principals, names) && cfg.authorizer.value(id, caller, names)
  }

  lemma CleanedAre(principals: seq<string>)
    ensures AreNames(principals, Cleaned(principals))
  {
    forall n ensures n in Cleaned(principals) <==> IsName(principals, n) {
      if IsName(principals, n) {
        var i :| 0 <= i < |principals| && Text.Strip(principals[i]) == n;
        assert principals[i] in principals;
      }
    }
  }

  lemma AcceptedIff(cfg: Config, id: string, principals: seq<string>, caller: string)
    requires caller != ""
    ensures Accepted(cfg, id, principals, caller) <==> Allows(cfg, id, caller, Cleaned(principals))
  {
    CleanedAre(principals);
    hide IsName, Cleaned;
    if cfg.authorizer.Some? && Accepted(cfg, id, principals, caller) {
      var names :| AreNames(principals, names) && cfg.authorizer.value(id, caller, names);
      assert names == Cleaned(principals);
    }
  }

  /** Main result: after any run, a reader of a thread gets everything that was appended if and only
      if it is accepted and in time; it is told Unauthorized exactly when it is not accepted and
      Expired exactly when it is accepted too late. */
  lemma ReadAnswersIff(cfg: Config, h: Run, id: string, principal: string, now: real)
    requires NoncesFit(h)
    ensures var r, life := Read(cfg, After(cfg, h), id, principal, now), LifeAfter(cfg, h, id);
            && (r == Err(ValueError) <==> !ValidId(id) || Text.Strip(principal) == "")
            && (ValidId(id) && Text.Strip(principal) != "" ==>
                if !cfg.enabled then r == Err(Unavailable)
                else if life.Unknown? then r == Err(Integrity)
                else if life.Gone? then r == Err(Shredded)
                else
                  var accepted := Accepted(cfg, id, life.principals, Text.Strip(principal));
                  var late := now >= life.at + life.ttl as real;
                  && (r.Ok? <==> accepted && !late && cfg.available)
                  && (r.Ok? ==> r.value == life.log)
                  && (r == Err(Unauthorized) <==> !accepted)
                  && (r == Err(Expired) <==> accepted && late)
                  && (r == Err(Unavailable) <==> accepted && !late && !cfg.available))
  {
    RunAgrees(cfg, h, id);
    var s, life := After(cfg, h), LifeAfter(cfg, h, id);
    if life.Live? && Text.Strip(principal) != "" {
      AcceptedIff(cfg, id, life.principals, Text.Strip(principal));
      if cfg.enabled && cfg.available && Allows(cfg, id, Text.Strip(principal), s.meta[id].principals) && now < s.meta[id].expiresAt {
        ReadReturnsAppended(cfg, h, id, principal, now);
      }
    }
    hide After, LifeAfter, Appended, ValidId, OpenAll, Accepted, Allows, Cleaned;
  }

  /** What an append answers: the number of chunks before it, or why not. */
  lemma AppendAnswersIff(cfg: Config, h: Run, id: string, plaintext: Bytes, now: real, nonce: Bytes)
    requires NoncesFit(h)
    ensures var r, life := EncryptedStore.Append(cfg, After(cfg, h), id, plaintext, now, nonce).1, LifeAfter(cfg, h, id);
            if !ValidId(id) || plaintext == [] then r == Err(ValueError)
            else if !cfg.enabled then r == Err(Unavailable)
            else if life.Unknown? then r == Err(Integrity)
            else if life.Gone? then r == Err(Shredded)
            else if now >= life.at + life.ttl as real then r == Err(Expired)
            else if !cfg.available then r == Err(Unavailable)
            else r == Ok(|life.log|)
  {
    RunAgrees(cfg, h, id);
    RunKeepsInv(cfg, h, id);
    var s, life := After(cfg, h), LifeAfter(cfg, h, id);
    if life.Live? {
      NothingBlank(s.chunks[id], s.meta[id].key, id, Appended(cfg, h, id));
    }
    hide After, LifeAfter, Appended, ValidId, Cleaned, NonBlank;
  }

  /** What a create answers: the thread's data, which ends ttl seconds after its creation. */
  lemma CreateAnswersIff(cfg: Config, h: Run, id: string, principals: seq<string>, ttl: int, now: real, key: nat)
    ensures var r, life := Create(cfg, After(cfg, h), id, principals, ttl, now, key).1, LifeAfter(cfg, h, id);
            if !ValidId(id) || !Named(principals) || ttl <= 0 || ttl > cfg.maxTtl then r == Err(ValueError)
            else if !cfg.enabled then r == Err(Unavailable)
            else if life.Gone? then r == Err(Shredded)
            else if life.Live? then r == Err(ValueError)
            else if !cfg.available then r == Err(Unavailable)
            else r.Ok? && r.value.createdAt == now && r.value.expiresAt == now + ttl as real
                 && AreNames(principals, r.value.principals)
  {
    RunAgrees(cfg, h, id);
    NamedIff(principals);
    CleanedAre(principals);
    hide After, LifeAfter, ValidId, Cleaned, Named;
  }

  /** A purge answers with the live threads of its listing whose time is up. */
  lemma PurgeAnswersIff(cfg: Config, h: Run, listing: seq<string>, now: real, id: string)
    ensures var r, life := Purge(cfg, After(cfg, h), listing, now).1, LifeAfter(cfg, h, id);
            && (r.Ok? <==> cfg.enabled) && (!cfg.enabled ==> r == Err(Unavailable))
            && (cfg.enabled ==> (id in r.value <==> id in listing && life.Live? && now >= life.at + life.ttl as real))
  {
    RunAgrees(cfg, h, id);
    OverdueAre(After(cfg, h), listing, now, id);
    hide After, LifeAfter, ValidId, Cleaned;
  }

  // ---------------------------------------------------------------- names, tombstones, lines

  /** A letter or digit of ASCII, by its code. */
  predicate Alphanumeric(c: char) {
    var n := c as int;
    48 <= n <= 57 || 65 <= n <= 90 || 97 <= n <= 122
  }

  /** A thread's name: one to 128 letters, digits, dots, underscores and hyphens, the first of them a
      letter or digit; a line break after it is let through. */
  lemma ValidIdIff(id: string)
    ensures ValidId(id) <==>
              exists name :: (id == name || id == name + "\n") && 1 <= |name| <= 128 && Alphanumeric(name[0])
                             && forall c :: c in name ==> Alphanumeric(c) || c in "._-"
  {
    if ValidId(id) {
      var name := if SafeName(id) then id else id[..|id| - 1];
      forall c | c in name ensures Alphanumeric(c) || c in "._-" {
        var i :| 0 <= i < |name| && name[i] == c;
        assert "._-"[0] == '.' && "._-"[1] == '_' && "._-"[2] == '-';
      }
      assert id == name || id == name + "\n";
    }
    if name :| (id == name || id == name + "\n") && 1 <= |name| <= 128 && Alphanumeric(name[0])
               && forall c :: c in name ==> Alphanumeric(c) || c in "._-"
    {
      forall i | 0 <= i < |name| ensures SafeChar(name[i]) || name[i] == '.' || name[i] == '_' || name[i] == '-' {
        assert name[i] in name;
      }
      assert SafeName(name);
      assert id != name ==> id[..|id| - 1] == name && id[|id| - 1] == '\n';
    }
  }

  /** So a thread's files lie in the directory of the store. */
  lemma IdsAreFileNames(id: string)
    requires ValidId(id)
    ensures id != "" && id[0] != '.' && '/' !in id && '\\' !in id && |id| <= 129
  {
  }

  /** A create never takes over files that are already there. */
  lemma CreateFindsNothing(cfg: Config, s: Store, id: string, principals: seq<string>, ttl: int, now: real, key: nat)
    requires Create(cfg, s, id, principals, ttl, now, key).1.Ok?
    ensures id !in s.meta && id !in s.chunks && id !in s.tombstones
  {
    hide ValidId, Cleaned;
  }

  /** The sequence number of an append counts the lines of the file that are not blank. */
  lemma {:induction false} NonBlankCounts(f: File)
    ensures NonBlank(f) == |set i | 0 <= i < |f| && !f[i].Blank?|
  {
    if f != [] {
      var init := f[..|f| - 1];
      NonBlankCounts(init);
      var before, now := set i | 0 <= i < |init| && !init[i].Blank?, set i | 0 <= i < |f| && !f[i].Blank?;
      assert now == before + if f[|f| - 1].Blank? then {} else {|f| - 1};
    }
  }

  predicate EachOnce(ids: seq<string>) {
    forall i, j | 0 <= i < j < |ids| :: ids[i] != ids[j]
  }

  /** Each thread has at most one tombstone. */
  lemma {:induction false} OneTombstone(cfg: Config, h: Run)
    ensures EachOnce(After(cfg, h).tombstones)
  {
    hide EachOnce, ValidId, Cleaned, NonBlank, Overdue, After;
    AfterUnfolds(cfg, h);
    if h == [] {
      ShredKeepsOnce(EMPTY, "");
    } else {
      var init, op := h[..|h| - 1], h[|h| - 1];
      OneTombstone(cfg, init);
      var s := After(cfg, init);
      if op.PurgeOp? {
        ShredAllKeepsOnce(s, Overdue(s, op.listing, op.now));
      } else if op.ShredOp? {
        ShredKeepsOnce(s, op.id);
      }
    }
  }

  lemma ShredKeepsOnce(s: Store, id: string)
    ensures EachOnce(s.tombstones) ==> EachOnce(Shred(s, id).tombstones)
    ensures EachOnce([])
  {
  }

  lemma AfterUnfolds(cfg: Config, h: Run)
    ensures After(cfg, h) == if h == [] then EMPTY else Step(cfg, After(cfg, h[..|h| - 1]), h[|h| - 1])
  {
  }

  lemma {:induction false} ShredAllKeepsOnce(s: Store, ids: seq<string>)
    requires EachOnce(s.tombstones)
    ensures EachOnce(ShredAll(s, ids).tombstones)
  {
    hide EachOnce;
    if ids != [] {
      ShredAllKeepsOnce(s, ids[..|ids| - 1]);
      ShredKeepsOnce(ShredAll(s, ids[..|ids| - 1]), ids[|ids| - 1]);
    }
  }
}
