/** When a lock is granted and when it is listed, over whole runs: by the stamp of the last grant
    and the run attached since, however processes interleave. */
module FixLockGrants {
  import opened Common
  import opened FixLocks
  import opened FixLockRuns
  import Text

  /** Locks are per pull request, whatever white space is around the repository's name and whatever
      its case. */
  lemma SameKeyIff(repoA: string, prA: int, repoB: string, prB: int)
    ensures KeyOf(repoA, prA) == KeyOf(repoB, prB) <==> prA == prB && Text.SameName(repoA, repoB)
  {
    Text.SameNameIff(repoA, repoB);
  }

  /** No successful acquire of `key` along the way. */
  predicate NoGrant(s: State, actions: seq<Action>, ttl: real, key: Key)
    requires Runs(s, actions, ttl)
    decreases |actions|
  {
    actions == []
    || (&& !(Granted(s, actions[0]) && actions[0].key == key)
        && NoGrant(Apply(s, actions[0], ttl), actions[1..], ttl, key))
  }

  /** The run last attached to `key`, or `run` if none was. */
  function AttachedRun(actions: seq<Action>, key: Key, run: string): string {
    if actions == [] then run
    else AttachedRun(actions[1..], key, if actions[0].Attach? && actions[0].key == key then actions[0].run else run)
  }

  /** Without a grant a row either goes or keeps its deadline and has the run last attached. */
  lemma {:induction false} RowKeeps(s: State, actions: seq<Action>, ttl: real, key: Key, deadline: real, run: string)
    requires Runs(s, actions, ttl) && NoGrant(s, actions, ttl, key)
    requires key in s.table ==> s.table[key].deadline == deadline && s.table[key].runId == run
    ensures var table := After(s, actions, ttl).table;
            key in table ==> table[key].deadline == deadline && table[key].runId == AttachedRun(actions, key, run)
    decreases |actions|
  {
    if actions != [] {
      var a := actions[0];
      RowKeeps(Apply(s, a, ttl), actions[1..], ttl, key, deadline, if a.Attach? && a.key == key then a.run else run);
    }
  }

  lemma {:induction false} RowStaysAway(s: State, actions: seq<Action>, ttl: real, key: Key)
    requires Runs(s, actions, ttl) && NoGrant(s, actions, ttl, key) && key !in s.table
    ensures key !in After(s, actions, ttl).table
    decreases |actions|
  {
    if actions != [] {
      RowStaysAway(Apply(s, actions[0], ttl), actions[1..], ttl, key);
    }
  }

  /** A key that was never granted is granted to the first who asks. */
  lemma FirstAcquireIsGranted(actions: seq<Action>, ttl: real, a: Action)
    requires Runs(EMPTY, actions, ttl) && a.TryAcquire? && NoGrant(EMPTY, actions, ttl, a.key)
    ensures Granted(After(EMPTY, actions, ttl), a)
  {
    RowStaysAway(EMPTY, actions, ttl, a.key);
  }

  /** What is between the last grant of a key and now. */
  ghost predicate SinceGrant(before: seq<Action>, first: Action, middle: seq<Action>, ttl: real) {
    && Runs(EMPTY, before, ttl) && Enabled(After(EMPTY, before, ttl), first) && Granted(After(EMPTY, before, ttl), first)
    && Runs(Apply(After(EMPTY, before, ttl), first, ttl), middle, ttl)
    && NoGrant(Apply(After(EMPTY, before, ttl), first, ttl), middle, ttl, first.key)
  }

  function Now(before: seq<Action>, first: Action, middle: seq<Action>, ttl: real): State
    requires SinceGrant(before, first, middle, ttl)
  {
    After(Apply(After(EMPTY, before, ttl), first, ttl), middle, ttl)
  }

  lemma RowSinceGrant(before: seq<Action>, first: Action, middle: seq<Action>, ttl: real)
    requires SinceGrant(before, first, middle, ttl)
    ensures var s, key := Now(before, first, middle, ttl), first.key;
            key in s.table ==>
              s.table[key].deadline == first.stamp + ttl && s.table[key].runId == AttachedRun(middle, key, "")
  {
    var s1 := Apply(After(EMPTY, before, ttl), first, ttl);
    assert s1.table[first.key] == Row(first.session, "", first.stamp + ttl);
    RowKeeps(s1, middle, ttl, first.key, first.stamp + ttl, "");
  }

  /** Main result: an acquire succeeds if and only if the key has no row any more, or the clock has
      reached the stamp of the last grant plus ttl, or a run was attached since and the last one is
      reported over. */
  lemma GrantedIff(before: seq<Action>, first: Action, middle: seq<Action>, second: Action, ttl: real)
    requires SinceGrant(before, first, middle, ttl) && second.TryAcquire? && second.key == first.key
    ensures var s, run := Now(before, first, middle, ttl), AttachedRun(middle, first.key, "");
            Granted(s, second)
            <==> first.key !in s.table || s.now >= first.stamp + ttl || (run != "" && second.answer == Over)
  {
    RowSinceGrant(before, first, middle, ttl);
    hide SinceGrant, Now, AttachedRun;
  }

  /** So every lock can be acquired again once ttl has passed, whatever the probe says. */
  lemma LocksComeBack(before: seq<Action>, first: Action, middle: seq<Action>, second: Action, ttl: real)
    requires SinceGrant(before, first, middle, ttl) && second.TryAcquire? && second.key == first.key
    requires Now(before, first, middle, ttl).now >= first.stamp + ttl
    ensures Granted(Now(before, first, middle, ttl), second)
  {
    GrantedIff(before, first, middle, second, ttl);
  }

  /** Main result: a snapshot lists a key if and only if it has a row, the clock has not reached the
      stamp of its last grant plus ttl, and no run attached since is reported over. */
  lemma ListedIff(before: seq<Action>, first: Action, middle: seq<Action>, answers: string -> Probe, ttl: real)
    requires SinceGrant(before, first, middle, ttl)
    ensures var s, run := Now(before, first, middle, ttl), AttachedRun(middle, first.key, "");
            first.key in Survivors(s.table, answers, s.now)
            <==> first.key in s.table && s.now < first.stamp + ttl && !(run != "" && answers(run) == Over)
  {
    RowSinceGrant(before, first, middle, ttl);
    hide SinceGrant, Now, AttachedRun;
  }

  // ---------------------------------------------------------------- a read nobody interrupts

  /** Answers that may be given: no live run is called over. */
  ghost predicate AnswersTruly(s: State, answers: string -> Probe) {
    forall run :: Truthful(s, run, answers(run))
  }

  /** The rows a reader has still to judge are those of the table, each once. */
  predicate StillCurrent(s: State, r: nat) {
    && r in s.readers && s.readers[r].now == Some(s.now) && s.readers[r].doomed.None?
    && forall i | 0 <= i < |s.readers[r].pending| ::
         && s.readers[r].pending[i].0 in s.table && s.table[s.readers[r].pending[i].0] == s.readers[r].pending[i].1
         && forall k | 0 <= k < i :: s.readers[r].pending[k].0 != s.readers[r].pending[i].0
  }

  /** The reader judges the next row, and deletes it if it is to go. */
  function Judged(s: State, r: nat, answers: string -> Probe, ttl: real): State
    requires AnswersTruly(s, answers) && StillCurrent(s, r) && s.readers[r].pending != []
  {
    var s1 := Apply(s, Judge(r, answers(s.readers[r].pending[0].1.runId)), ttl);
    if s1.readers[r].doomed.Some? then Apply(s1, Delete(r), ttl) else s1
  }

  lemma JudgedRow(s: State, r: nat, answers: string -> Probe, ttl: real)
    requires AnswersTruly(s, answers) && StillCurrent(s, r) && s.readers[r].pending != []
    ensures var s', (key, row) := Judged(s, r, answers, ttl), s.readers[r].pending[0];
            && s'.readers.Keys == s.readers.Keys && s'.readers[r] == s.readers[r].(pending := s.readers[r].pending[1..])
            && s'.now == s.now && s'.finished == s.finished
            && s'.table == if Ended(row, answers(row.runId), s.now) then s.table - {key} else s.table
    ensures AnswersTruly(Judged(s, r, answers, ttl), answers) && StillCurrent(Judged(s, r, answers, ttl), r)
  {
    var pending := s.readers[r].pending;
    assert forall i | 0 <= i < |pending[1..]| :: pending[1..][i] == pending[i + 1];
  }

  /** The reader's steps to its end, with nothing in between. */
  function Finished(s: State, r: nat, answers: string -> Probe, ttl: real): State
    requires AnswersTruly(s, answers) && StillCurrent(s, r)
    decreases |s.readers[r].pending|
  {
    if s.readers[r].pending == [] then s
    else
      JudgedRow(s, r, answers, ttl);
      Finished(Judged(s, r, answers, ttl), r, answers, ttl)
  }

  predicate Ends(pending: seq<(Key, Row)>, answers: string -> Probe, now: real, key: Key) {
    exists i | 0 <= i < |pending| :: pending[i].0 == key && Ended(pending[i].1, answers(pending[i].1.runId), now)
  }

  lemma EndsFirst(pending: seq<(Key, Row)>, answers: string -> Probe, now: real, key: Key)
    requires pending != []
    ensures Ends(pending, answers, now, key)
            <==> (pending[0].0 == key && Ended(pending[0].1, answers(pending[0].1.runId), now)) || Ends(pending[1..], answers, now, key)
  {
    hide Ended;
    var rest := pending[1..];
    assert forall i | 0 <= i < |rest| :: rest[i] == pending[i + 1];
    if i :| 1 <= i < |pending| && pending[i].0 == key && Ended(pending[i].1, answers(pending[i].1.runId), now) {
      assert rest[i - 1] == pending[i];
    }
  }

  /** Read without interruption, the rows selected that have ended go and all others stay. */
  lemma {:induction false} FinishedDeletesTheEnded(s: State, r: nat, answers: string -> Probe, ttl: real, key: Key)
    requires AnswersTruly(s, answers) && StillCurrent(s, r)
    ensures var table := Finished(s, r, answers, ttl).table;
            && (key in table <==> key in s.table && !Ends(s.readers[r].pending, answers, s.now, key))
            && (key in table ==> table[key] == s.table[key])
    decreases |s.readers[r].pending|
  {
    var pending := s.readers[r].pending;
    if pending != [] {
      JudgedRow(s, r, answers, ttl);
      EndsFirst(pending, answers, s.now, key);
      hide AnswersTruly, StillCurrent, Judged, Ended, Ends;
      FinishedDeletesTheEnded(Judged(s, r, answers, ttl), r, answers, ttl, key);
    }
  }

  /** Such a read of the whole table is the snapshot of the manager. */
  lemma FinishedIsTheSnapshot(s: State, r: nat, rows: seq<(Key, Row)>, answers: string -> Probe, ttl: real)
    requires AnswersTruly(s, answers) && Enabled(s, Select(r, rows))
    requires forall key :: key in s.table ==> exists i | 0 <= i < |rows| :: rows[i].0 == key
    requires forall i, k | 0 <= k < i < |rows| :: rows[k].0 != rows[i].0
    ensures var s1 := Apply(Apply(s, Select(r, rows), ttl), ReadClock(r), ttl);
            AnswersTruly(s1, answers) && StillCurrent(s1, r)
            && Finished(s1, r, answers, ttl).table == Survivors(s.table, answers, s.now)
  {
    var s1 := Apply(Apply(s, Select(r, rows), ttl), ReadClock(r), ttl);
    assert s1.readers[r].pending == rows && s1.table == s.table && s1.now == s.now;
    assert AnswersTruly(s1, answers) && StillCurrent(s1, r);
    hide AnswersTruly, StillCurrent, Finished, Apply;
    var table := Finished(s1, r, answers, ttl).table;
    forall key ensures key in table <==> key in Survivors(s.table, answers, s.now)
      ensures key in table ==> table[key] == s.table[key]
    {
      FinishedDeletesTheEnded(s1, r, answers, ttl, key);
      if key in s.table {
        var i :| 0 <= i < |rows| && rows[i].0 == key;
        assert s.table[key] == rows[i].1;
        assert Ended(rows[i].1, answers(rows[i].1.runId), s.now) ==> Ends(rows, answers, s.now, key);
      }
    }
  }
}
