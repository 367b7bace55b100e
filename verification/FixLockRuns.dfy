/** Every interleaving of processes on the lock table, as runs of small steps. */
module FixLockRuns {
  import opened Common
  import opened FixLocks

  /** A read in progress: the rows it selected, its clock reading, and the row it has found
      to be ended and is about to delete. */
  datatype Reader = Reader(pending: seq<(Key, Row)>, now: Option<real>, doomed: Option<(Key, real)>)

  /** What the last successful acquire of a key was promised; kept for the statements only. */
  datatype Hold = Hold(session: string, runId: string, deadline: real)

  datatype State = State(
    table: Table, now: real, finished: set<string>, readers: map<nat, Reader>,
    holds: map<Key, Hold>, last: map<Key, real>)

  datatype Action =
    | Tick(to: real)
    | FinishRun(run: string)
    | TryAcquire(key: Key, session: string, answer: Probe, stamp: real)
    | Attach(key: Key, run: string)
    | Release(key: Key)
    | Select(reader: nat, rows: seq<(Key, Row)>)
    | ReadClock(reader: nat)
    | Judge(reader: nat, answer: Probe)
    | Delete(reader: nat)

  const EMPTY := State(map[], 0.0, {}, map[], map[], map[])

  /** A probe never calls a live run over. */
  predicate Truthful(s: State, run: string, answer: Probe) {
    answer == Over ==> run in s.finished
  }

  predicate Granted(s: State, a: Action) {
    a.TryAcquire? && Grants(s.table, a.key, a.answer, s.now)
  }

  /** What the environment and the order of a process's own steps allow. */
  predicate Enabled(s: State, a: Action) {
    match a
    case Tick(to) => to >= s.now
    case FinishRun(run) => run != ""
    case TryAcquire(key, _, answer, stamp) =>
      stamp >= s.now && (key in s.table ==> Truthful(s, s.table[key].runId, answer))
    case Attach(_, run) => run != ""
    case Release(_) => true
    case Select(r, rows) =>
      r !in s.readers && forall i | 0 <= i < |rows| :: rows[i].0 in s.table && s.table[rows[i].0] == rows[i].1
    case ReadClock(r) => r in s.readers && s.readers[r].now.None?
    case Judge(r, answer) =>
      && r in s.readers && s.readers[r].now.Some? && s.readers[r].pending != [] && s.readers[r].doomed.None?
      && Truthful(s, s.readers[r].pending[0].1.runId, answer)
    case Delete(r) => r in s.readers && s.readers[r].doomed.Some?
  }

  function Apply(s: State, a: Action, ttl: real): State
    requires Enabled(s, a)
  {
    match a
    case Tick(to) => s.(now := to)
    case FinishRun(run) => s.(finished := s.finished + {run})
    case TryAcquire(key, session, answer, stamp) =>
      if Granted(s, a) then
        s.(table := Acquired(s.table, key, session, answer, s.now, stamp, ttl), now := stamp,
           holds := s.holds[key := Hold(session, "", stamp + ttl)], last := s.last[key := stamp + ttl])
      else s.(table := Acquired(s.table, key, session, answer, s.now, stamp, ttl))
    case Attach(key, run) =>
      s.(table := Attached(s.table, key, run),
         holds := if key in s.table && key in s.holds then s.holds[key := s.holds[key].(runId := run)] else s.holds)
    case Release(key) => s.(table := s.table - {key}, holds := s.holds - {key})
    case Select(r, rows) => s.(readers := s.readers[r := Reader(rows, None, None)])
    case ReadClock(r) => s.(readers := s.readers[r := s.readers[r].(now := Some(s.now))])
    case Judge(r, answer) =>
      var reader := s.readers[r];
      var (key, row) := reader.pending[0];
      var doomed := if Ended(row, answer, reader.now.value) then Some((key, row.deadline)) else None;
      s.(readers := s.readers[r := reader.(pending := reader.pending[1..], doomed := doomed)])
    case Delete(r) =>
      var reader := s.readers[r];
      var (key, deadline) := reader.doomed.value;
      s.(table := DeleteExact(s.table, key, deadline), readers := s.readers[r := reader.(doomed := None)])
  }

  /** What callers may be held to: a lock binds a run at most once, and an acquire of a key stamps
      a later deadline than the one before. */
  datatype Policy = Policy(once: bool, strict: bool)

  const BOTH := Policy(true, true)

  predicate Keeps(p: Policy, s: State, a: Action, ttl: real) {
    && (p.once ==> a.Attach? && a.key in s.table ==> s.table[a.key].runId == "")
    && (p.strict ==> Granted(s, a) && a.key in s.last ==> a.stamp + ttl > s.last[a.key])
  }

  predicate Runs(s: State, actions: seq<Action>, ttl: real)
    decreases |actions|
  {
    actions == [] || (Enabled(s, actions[0]) && Runs(Apply(s, actions[0], ttl), actions[1..], ttl))
  }

  function After(s: State, actions: seq<Action>, ttl: real): State
    requires Runs(s, actions, ttl)
    decreases |actions|
  {
    if actions == [] then s else After(Apply(s, actions[0], ttl), actions[1..], ttl)
  }

  predicate KeepsRun(p: Policy, s: State, actions: seq<Action>, ttl: real)
    requires Runs(s, actions, ttl)
    decreases |actions|
  {
    actions == []
    || (Keeps(p, s, actions[0], ttl) && KeepsRun(p, Apply(s, actions[0], ttl), actions[1..], ttl))
  }

  // ---------------------------------------------------------------- the invariant

  predicate HoldOver(s: State, h: Hold) {
    s.now >= h.deadline || (h.runId != "" && h.runId in s.finished)
  }

  /** A snapshot of a row was taken before or after the run was attached, never in between two. */
  predicate SnapshotOk(s: State, key: Key, row: Row) {
    && key in s.last && row.deadline <= s.last[key]
    && (key in s.holds && s.holds[key].deadline == row.deadline ==>
          row.runId == "" || row.runId == s.holds[key].runId)
  }

  predicate DoomedOk(s: State, key: Key, deadline: real) {
    && key in s.last && deadline <= s.last[key]
    && (key in s.holds && s.holds[key].deadline == deadline ==> HoldOver(s, s.holds[key]))
  }

  predicate ReaderOk(s: State, r: Reader) {
    && (r.now.Some? ==> r.now.value <= s.now)
    && (forall i | 0 <= i < |r.pending| :: SnapshotOk(s, r.pending[i].0, r.pending[i].1))
    && (r.doomed.Some? ==> DoomedOk(s, r.doomed.value.0, r.doomed.value.1))
  }

  predicate RowOk(s: State, key: Key) {
    key in s.table ==>
      key in s.holds && s.table[key] == Row(s.holds[key].session, s.holds[key].runId, s.holds[key].deadline)
  }

  predicate HoldOk(s: State, key: Key) {
    key in s.holds ==>
      key in s.last && s.last[key] == s.holds[key].deadline && (key in s.table || HoldOver(s, s.holds[key]))
  }

  predicate Inv(s: State) {
    && (forall key | key in s.table :: RowOk(s, key))
    && (forall key | key in s.holds :: HoldOk(s, key))
    && (forall r | r in s.readers :: ReaderOk(s, s.readers[r]))
  }

  lemma StepKeepsReaders(s: State, a: Action, ttl: real)
    requires Inv(s) && Enabled(s, a) && Keeps(BOTH, s, a, ttl) && ttl > 0.0
    ensures forall r | r in s.readers :: r in Apply(s, a, ttl).readers
    ensures forall r | r in Apply(s, a, ttl).readers :: ReaderOk(Apply(s, a, ttl), Apply(s, a, ttl).readers[r])
  {
    var s' := Apply(s, a, ttl);
    forall r | r in s'.readers ensures ReaderOk(s', s'.readers[r]) {
      if r in s.readers {
        var old' := s.readers[r];
        assert ReaderOk(s, old');
        forall i | 0 <= i < |old'.pending| ensures SnapshotOk(s', old'.pending[i].0, old'.pending[i].1) {
          assert SnapshotOk(s, old'.pending[i].0, old'.pending[i].1);
        }
      }
    }
  }

  lemma StepKeepsInv(s: State, a: Action, ttl: real)
    requires Inv(s) && Enabled(s, a) && Keeps(BOTH, s, a, ttl) && ttl > 0.0
    ensures Inv(Apply(s, a, ttl))
  {
    StepKeepsReaders(s, a, ttl);
    var s' := Apply(s, a, ttl);
    forall key | key in s'.table || key in s'.holds ensures RowOk(s', key) && HoldOk(s', key) {
      StepKeepsKey(s, a, ttl, key);
    }
    hide ReaderOk, RowOk, HoldOk, Apply;
  }

  lemma StepKeepsKey(s: State, a: Action, ttl: real, key: Key)
    requires Inv(s) && Enabled(s, a) && Keeps(BOTH, s, a, ttl) && ttl > 0.0
    ensures RowOk(Apply(s, a, ttl), key) && HoldOk(Apply(s, a, ttl), key)
  {
    assert RowOk(s, key) && HoldOk(s, key);
    assert a.Delete? ==> ReaderOk(s, s.readers[a.reader]);
    hide Inv, SnapshotOk;
  }

  lemma {:induction false} RunKeepsInv(s: State, actions: seq<Action>, ttl: real)
    requires Inv(s) && ttl > 0.0 && Runs(s, actions, ttl) && KeepsRun(BOTH, s, actions, ttl)
    ensures Inv(After(s, actions, ttl))
    decreases |actions|
  {
    hide Inv, Apply, Enabled, Keeps;
    if actions != [] {
      StepKeepsInv(s, actions[0], ttl);
      RunKeepsInv(Apply(s, actions[0], ttl), actions[1..], ttl);
    }
  }

  // ---------------------------------------------------------------- exclusion

  /** No release and no successful acquire of `key` along the way. */
  predicate Untouched(s: State, actions: seq<Action>, ttl: real, key: Key)
    requires Runs(s, actions, ttl)
    decreases |actions|
  {
    actions == []
    || (&& actions[0] != Release(key)
        && !(Granted(s, actions[0]) && actions[0].key == key)
        && Untouched(Apply(s, actions[0], ttl), actions[1..], ttl, key))
  }

  /** A hold that is not touched keeps its deadline, and its run is one that was attached. */
  lemma {:induction false} HoldPersists(s: State, actions: seq<Action>, ttl: real, key: Key)
    requires Runs(s, actions, ttl) && Untouched(s, actions, ttl, key) && key in s.holds
    ensures var s' := After(s, actions, ttl);
            && key in s'.holds && s'.holds[key].deadline == s.holds[key].deadline
            && (s'.holds[key].runId == s.holds[key].runId || Attach(key, s'.holds[key].runId) in actions)
    decreases |actions|
  {
    if actions != [] {
      var s1 := Apply(s, actions[0], ttl);
      assert key in s1.holds && s1.holds[key].deadline == s.holds[key].deadline;
      assert s1.holds[key].runId == s.holds[key].runId || actions[0] == Attach(key, s1.holds[key].runId);
      hide Apply, Enabled;
      HoldPersists(s1, actions[1..], ttl, key);
    }
  }

  /** An acquire can only succeed when the last hold of the key is over. */
  lemma GrantNeedsOver(s: State, a: Action)
    requires Inv(s) && Enabled(s, a) && Granted(s, a) && a.key in s.holds
    ensures HoldOver(s, s.holds[a.key])
  {
  }

  /** Main result: from the empty table, in every disciplined interleaving, between two
      successful acquires of one PR without a release in between, the first one's deadline
      has passed or a run attached to it has ended. */
  lemma MutualExclusion(before: seq<Action>, first: Action, middle: seq<Action>, second: Action, ttl: real)
    requires ttl > 0.0 && Runs(EMPTY, before, ttl) && KeepsRun(BOTH, EMPTY, before, ttl)
    requires var s := After(EMPTY, before, ttl);
             && Enabled(s, first) && Keeps(BOTH, s, first, ttl) && Granted(s, first)
             && Runs(Apply(s, first, ttl), middle, ttl) && KeepsRun(BOTH, Apply(s, first, ttl), middle, ttl)
             && Untouched(Apply(s, first, ttl), middle, ttl, first.key)
             && Enabled(After(Apply(s, first, ttl), middle, ttl), second)
             && Granted(After(Apply(s, first, ttl), middle, ttl), second) && second.key == first.key
    ensures var s2 := After(Apply(After(EMPTY, before, ttl), first, ttl), middle, ttl);
            || s2.now >= first.stamp + ttl
            || exists run :: Attach(first.key, run) in middle && run in s2.finished
  {
    RunKeepsInv(EMPTY, before, ttl);
    var s := After(EMPTY, before, ttl);
    StepKeepsInv(s, first, ttl);
    var s1 := Apply(s, first, ttl);
    assert s1.holds[first.key] == Hold(first.session, "", first.stamp + ttl);
    hide Apply, Enabled, Keeps;
    RunKeepsInv(s1, middle, ttl);
    HoldPersists(s1, middle, ttl, first.key);
    GrantNeedsOver(After(s1, middle, ttl), second);
  }

  // ---------------------------------------------------------------- discipline is needed

  const KEY: Key := ("o/r", 1)

  lemma {:induction false} RunsSnoc(p: Policy, s: State, actions: seq<Action>, a: Action, ttl: real)
    requires Runs(s, actions, ttl) && Enabled(After(s, actions, ttl), a)
    requires KeepsRun(p, s, actions, ttl) && Keeps(p, After(s, actions, ttl), a, ttl)
    ensures Runs(s, actions + [a], ttl) && KeepsRun(p, s, actions + [a], ttl)
    ensures After(s, actions + [a], ttl) == Apply(After(s, actions, ttl), a, ttl)
    decreases |actions|
  {
    hide Apply, Enabled, Keeps;
    if actions == [] {
      assert (actions + [a])[1..] == [];
    } else {
      RunsSnoc(p, Apply(s, actions[0], ttl), actions[1..], a, ttl);
      assert (actions + [a])[1..] == actions[1..] + [a];
    }
  }

  /** A lock is held with run r1 attached, a reader selects it, and r1 ends. */
  lemma RunEndsUnderReader(p: Policy, ttl: real) returns (actions: seq<Action>)
    requires ttl > 0.0
    ensures Runs(EMPTY, actions, ttl) && KeepsRun(p, EMPTY, actions, ttl)
    ensures After(EMPTY, actions, ttl) ==
            State(map[KEY := Row("a", "r1", ttl)], 0.0, {"r1"}, map[0 := Reader([(KEY, Row("a", "r1", ttl))], None, None)],
                  map[KEY := Hold("a", "r1", ttl)], map[KEY := ttl])
  {
    hide Runs, After, KeepsRun;
    var row := Row("a", "r1", ttl);
    var holds, last := map[KEY := Hold("a", "r1", ttl)], map[KEY := ttl];
    var s1 := State(map[KEY := Row("a", "", ttl)], 0.0, {}, map[], map[KEY := Hold("a", "", ttl)], last);
    var s2 := State(map[KEY := row], 0.0, {}, map[], holds, last);
    var s4 := State(map[KEY := row], 0.0, {"r1"}, map[0 := Reader([(KEY, row)], None, None)], holds, last);
    RunsNothing(p, EMPTY, ttl);
    actions := Extend(p, [], TryAcquire(KEY, "a", Live, 0.0), EMPTY, s1, ttl);
    actions := Extend(p, actions, Attach(KEY, "r1"), s1, s2, ttl);
    actions := Extend(p, actions, Select(0, [(KEY, row)]), s2, s4.(finished := {}), ttl);
    actions := Extend(p, actions, FinishRun("r1"), s4.(finished := {}), s4, ttl);
  }

  /** The reader has judged the row and is about to delete it. */
  lemma ReaderAboutToDelete(p: Policy, ttl: real) returns (actions: seq<Action>)
    requires ttl > 0.0
    ensures Runs(EMPTY, actions, ttl) && KeepsRun(p, EMPTY, actions, ttl)
    ensures After(EMPTY, actions, ttl) ==
            State(map[KEY := Row("a", "r1", ttl)], 0.0, {"r1"}, map[0 := Reader([], Some(0.0), Some((KEY, ttl)))],
                  map[KEY := Hold("a", "r1", ttl)], map[KEY := ttl])
  {
    hide Runs, After, KeepsRun;
    actions := RunEndsUnderReader(p, ttl);
    var s4 := After(EMPTY, actions, ttl);
    var pending := s4.readers[0].pending;
    var s5 := s4.(readers := map[0 := Reader(pending, Some(0.0), None)]);
    assert pending[1..] == [];
    actions := Extend(p, actions, ReadClock(0), s4, s5, ttl);
    actions := Extend(p, actions, Judge(0, Over), s5, s5.(readers := map[0 := Reader([], Some(0.0), Some((KEY, ttl)))]), ttl);
  }

  lemma Extend(p: Policy, actions: seq<Action>, a: Action, s: State, s': State, ttl: real) returns (longer: seq<Action>)
    requires Runs(EMPTY, actions, ttl) && KeepsRun(p, EMPTY, actions, ttl) && After(EMPTY, actions, ttl) == s
    requires Enabled(s, a) && Keeps(p, s, a, ttl) && Apply(s, a, ttl) == s'
    ensures longer == actions + [a] && Runs(EMPTY, longer, ttl) && KeepsRun(p, EMPTY, longer, ttl)
    ensures After(EMPTY, longer, ttl) == s'
  {
    hide Apply, Enabled, Keeps;
    RunsSnoc(p, EMPTY, actions, a, ttl);
    longer := actions + [a];
  }

  lemma RunsNothing(p: Policy, s: State, ttl: real)
    ensures Runs(s, [], ttl) && KeepsRun(p, s, [], ttl) && After(s, [], ttl) == s
  {
  }

  /** A lock attached to a second run while a reader is about to delete it for the end of
      the first is lost, although every acquire stamps a later deadline: it is granted again
      while its run is live and its time not up. */
  lemma SecondAttachLosesTheLock(ttl: real) returns (actions: seq<Action>)
    requires ttl > 0.0
    ensures Runs(EMPTY, actions, ttl) && KeepsRun(Policy(false, true), EMPTY, actions, ttl)
    ensures var s := After(EMPTY, actions, ttl);
            && s.holds == map[KEY := Hold("a", "r2", ttl)] && !HoldOver(s, s.holds[KEY])
            && Granted(s, TryAcquire(KEY, "b", Live, 0.0)) && Enabled(s, TryAcquire(KEY, "b", Live, 0.0))
  {
    hide Runs, After, KeepsRun;
    var p := Policy(false, true);
    actions := ReaderAboutToDelete(p, ttl);
    var s0 := After(EMPTY, actions, ttl);
    var s1 := Apply(s0, Attach(KEY, "r2"), ttl);
    actions := Extend(p, actions, Attach(KEY, "r2"), s0, s1, ttl);
    actions := Extend(p, actions, Delete(0), s1, Apply(s1, Delete(0), ttl), ttl);
  }

  /** A lock released and acquired again at the clock reading of the first acquire has the
      first deadline, and no lock was bound twice; the reader's late delete removes it and a
      third acquire succeeds. */
  lemma SameClockReadingLosesTheLock(ttl: real) returns (actions: seq<Action>)
    requires ttl > 0.0
    ensures Runs(EMPTY, actions, ttl) && KeepsRun(Policy(true, false), EMPTY, actions, ttl)
    ensures var s := After(EMPTY, actions, ttl);
            && s.holds == map[KEY := Hold("b", "", ttl)] && !HoldOver(s, s.holds[KEY])
            && Granted(s, TryAcquire(KEY, "c", Live, 0.0)) && Enabled(s, TryAcquire(KEY, "c", Live, 0.0))
  {
    hide Runs, After, KeepsRun;
    var p := Policy(true, false);
    actions := ReaderAboutToDelete(p, ttl);
    var s0 := After(EMPTY, actions, ttl);
    var s1 := Apply(s0, Release(KEY), ttl);
    actions := Extend(p, actions, Release(KEY), s0, s1, ttl);
    var s2 := Apply(s1, TryAcquire(KEY, "b", Live, 0.0), ttl);
    actions := Extend(p, actions, TryAcquire(KEY, "b", Live, 0.0), s1, s2, ttl);
    actions := Extend(p, actions, Delete(0), s2, Apply(s2, Delete(0), ttl), ttl);
  }

  /** An acquire that could now succeed finds the last hold of its key over. */
  ghost predicate Excludes(s: State) {
    forall a | Enabled(s, a) && Granted(s, a) && a.key in s.holds :: HoldOver(s, s.holds[a.key])
  }

  ghost predicate AlwaysExcludes(p: Policy, ttl: real) {
    forall actions | Runs(EMPTY, actions, ttl) && KeepsRun(p, EMPTY, actions, ttl) :: Excludes(After(EMPTY, actions, ttl))
  }

  /** Keeping both rules keeps each. */
  lemma {:induction false} KeepsMore(p: Policy, s: State, actions: seq<Action>, ttl: real, q: Policy)
    requires Runs(s, actions, ttl) && KeepsRun(p, s, actions, ttl) && (q.once ==> p.once) && (q.strict ==> p.strict)
    ensures KeepsRun(q, s, actions, ttl)
    decreases |actions|
  {
    if actions != [] {
      assert Keeps(q, s, actions[0], ttl);
      hide Apply, Enabled, Keeps;
      KeepsMore(p, Apply(s, actions[0], ttl), actions[1..], ttl, q);
    }
  }

  lemma ExclusionHolds(ttl: real)
    requires ttl > 0.0
    ensures AlwaysExcludes(BOTH, ttl)
  {
    hide Runs, KeepsRun, After, Inv, Apply, HoldOver;
    forall actions | Runs(EMPTY, actions, ttl) && KeepsRun(BOTH, EMPTY, actions, ttl) ensures Excludes(After(EMPTY, actions, ttl)) {
      EmptyInv();
      RunKeepsInv(EMPTY, actions, ttl);
      var s := After(EMPTY, actions, ttl);
      forall a | Enabled(s, a) && Granted(s, a) && a.key in s.holds ensures HoldOver(s, s.holds[a.key]) {
        GrantNeedsOver(s, a);
      }
    }
  }

  lemma EmptyInv()
    ensures Inv(EMPTY)
  {
  }

  /** Main result: in every interleaving that keeps a policy an acquire only succeeds when the last
      hold of its key is over, if and only if the policy asks for both: a lock binds at most
      one run, and each acquire of a key stamps a later deadline. */
  lemma ExclusionIff(p: Policy, ttl: real)
    requires ttl > 0.0
    ensures AlwaysExcludes(p, ttl) <==> p.once && p.strict
  {
    if p.once && p.strict {
      ExclusionHolds(ttl);
    } else {
      hide Runs, After, KeepsRun, Apply, HoldOver, Granted, Enabled;
      var actions: seq<Action>, second: Action;
      if !p.once {
        actions := SecondAttachLosesTheLock(ttl);
        second := TryAcquire(KEY, "b", Live, 0.0);
        KeepsMore(Policy(false, true), EMPTY, actions, ttl, p);
      } else {
        actions := SameClockReadingLosesTheLock(ttl);
        second := TryAcquire(KEY, "c", Live, 0.0);
        KeepsMore(Policy(true, false), EMPTY, actions, ttl, p);
      }
      assert second.key in After(EMPTY, actions, ttl).holds;
      assert !Excludes(After(EMPTY, actions, ttl));
    }
  }
}
