/** The stampede protection of `get_or_set` (backend/cache_utils.py) for one key: callers
    race through a fast lookup, a per-key lock that the winner drops from the table when it
    is done, a second lookup under the lock, and the factory. */
module SingleFlight {
  import opened Common

  type Value = string

  /** Where a caller stands; `lock` is the lock object it holds a reference to. */
  datatype Caller =
    | Entered
    | Missed
    | Waiting(lock: nat)
    | Holding(lock: nat)
    | InFactory(lock: nat)
    | Popping(result: Option<Value>)
    | Returned(result: Option<Value>)
    | Failed

  /** The stored entry, the lock registered for the key, the locks that are taken and by
      whom, the next unused lock object, and the callers. `None` is Python's None. */
  datatype State = State(
    stored: Option<Value>, registered: Option<nat>, owners: map<nat, nat>, unused: nat, callers: map<nat, Caller>)

  datatype Action =
    | Enter(who: nat)
    | FastGet(who: nat, usable: bool)
    | TakeReference(who: nat)
    | AcquireLock(who: nat)
    | Recheck(who: nat, usable: bool)
    | FactoryReturns(who: nat, result: Option<Value>)
    | FactoryRaises(who: nat)
    | PopLock(who: nat)
    | Cancel(who: nat)
    | Forget

  const START := State(None, None, map[], 0, map[])

  predicate At(s: State, who: nat, c: Caller) {
    who in s.callers && s.callers[who] == c
  }

  /** Where a caller is suspended and can be cancelled. */
  predicate AtAwait(c: Caller) {
    c.Missed? || c.Waiting? || c.InFactory? || c.Popping?
  }

  predicate Enabled(s: State, a: Action) {
    match a
    case Enter(p) => p !in s.callers
    case FastGet(p, _) => At(s, p, Entered)
    case TakeReference(p) => At(s, p, Missed)
    case AcquireLock(p) => p in s.callers && s.callers[p].Waiting? && s.callers[p].lock !in s.owners
    case Recheck(p, _) => p in s.callers && s.callers[p].Holding?
    case FactoryReturns(p, _) => p in s.callers && s.callers[p].InFactory?
    case FactoryRaises(p) => p in s.callers && s.callers[p].InFactory?
    case PopLock(p) => p in s.callers && s.callers[p].Popping?
    case Cancel(p) => p in s.callers && AtAwait(s.callers[p])
    case Forget => true
  }

  function Move(s: State, who: nat, c: Caller): State {
    s.(callers := s.callers[who := c])
  }

  /** One step of a caller between two points where it can be suspended; `usable` says whether
      a stored value is within the caller's time to live. */
  function Apply(s: State, a: Action): State
    requires Enabled(s, a)
  {
    match a
    case Enter(p) => Move(s, p, Entered)
    case FastGet(p, usable) => Move(s, p, if s.stored.Some? && usable then Returned(s.stored) else Missed)
    case TakeReference(p) =>
      if s.registered.Some? then Move(s, p, Waiting(s.registered.value))
      else Move(s.(registered := Some(s.unused), unused := s.unused + 1), p, Waiting(s.unused))
    case AcquireLock(p) =>
      var l := s.callers[p].lock;
      Move(s.(owners := s.owners[l := p]), p, Holding(l))
    case Recheck(p, usable) =>
      var l := s.callers[p].lock;
      if s.stored.Some? && usable then Move(s.(owners := s.owners - {l}), p, Returned(s.stored))
      else Move(s, p, InFactory(l))
    case FactoryReturns(p, result) =>
      Move(s.(stored := result, owners := s.owners - {s.callers[p].lock}), p, Popping(result))
    case FactoryRaises(p) => Move(s.(owners := s.owners - {s.callers[p].lock}), p, Failed)
    case PopLock(p) => Move(s.(registered := None), p, Returned(s.callers[p].result))
    case Cancel(p) =>
      var c := s.callers[p];
      Move(if c.InFactory? then s.(owners := s.owners - {c.lock}) else s, p, Failed)
    case Forget => s.(stored := None)
  }

  /** What may happen besides: a factory returns None; the stored value is evicted, deleted or
      cleared; it is past the time to live of a caller that looks for it. */
  datatype Policy = Policy(none: bool, forgotten: bool, stale: bool)

  const USABLE := Policy(false, false, false)

  predicate Allowed(may: Policy, s: State, a: Action) {
    match a
    case FactoryReturns(_, result) => result.Some? || may.none
    case FastGet(_, usable) => s.stored.Some? && !usable ==> may.stale
    case Recheck(_, usable) => s.stored.Some? && !usable ==> may.stale
    case Forget => s.stored.None? || may.forgotten
    case _ => true
  }

  predicate Runs(actions: seq<Action>)
    decreases |actions|, 0
  {
    actions == []
    || (Runs(actions[..|actions| - 1]) && Enabled(After(actions[..|actions| - 1]), actions[|actions| - 1]))
  }

  function After(actions: seq<Action>): State
    requires Runs(actions)
    decreases |actions|, 1
  {
    if actions == [] then START else Apply(After(actions[..|actions| - 1]), actions[|actions| - 1])
  }

  predicate AllowedRun(may: Policy, actions: seq<Action>)
    requires Runs(actions)
  {
    actions == []
    || (AllowedRun(may, actions[..|actions| - 1]) && Allowed(may, After(actions[..|actions| - 1]), actions[|actions| - 1]))
  }

  // ---------------------------------------------------------------- invariant

  predicate CallerOk(s: State, p: nat, c: Caller) {
    match c
    case Waiting(l) => s.stored.None? ==> s.registered == Some(l)
    case Holding(l) => l in s.owners && s.owners[l] == p && (s.stored.None? ==> s.registered == Some(l))
    case InFactory(l) => l in s.owners && s.owners[l] == p && s.stored.None? && s.registered == Some(l)
    case Popping(r) => s.stored.Some? && r == s.stored
    case Returned(r) => s.stored.Some? && r == s.stored
    case _ => true
  }

  predicate Inv(s: State) {
    && (forall p | p in s.callers :: CallerOk(s, p, s.callers[p]))
    && (forall l | l in s.owners ::
          s.owners[l] in s.callers
          && (s.callers[s.owners[l]] == Holding(l) || s.callers[s.owners[l]] == InFactory(l)))
  }

  lemma StepKeepsInv(s: State, a: Action)
    requires Inv(s) && Enabled(s, a) && Allowed(USABLE, s, a)
    ensures Inv(Apply(s, a))
  {
    var s' := Apply(s, a);
    forall p | p in s'.callers ensures CallerOk(s', p, s'.callers[p]) {
      if p in s.callers {
        assert CallerOk(s, p, s.callers[p]);
      }
    }
  }

  lemma {:induction false} RunKeepsInv(actions: seq<Action>)
    requires Runs(actions) && AllowedRun(USABLE, actions)
    ensures Inv(After(actions))
  {
    hide Inv, Apply, Enabled, Allowed;
    if actions == [] {
      StartInv();
    } else {
      RunKeepsInv(actions[..|actions| - 1]);
      StepKeepsInv(After(actions[..|actions| - 1]), actions[|actions| - 1]);
    }
  }

  lemma StartInv()
    ensures Inv(START)
  {
  }

  /** Main result: in every interleaving in which a stored value stays usable, no two
      factory calls overlap, none is running once a value is stored, and every caller that
      returns has that value. Factories that raise do not weaken this. */
  lemma FactoriesDoNotOverlap(actions: seq<Action>, p: nat, q: nat)
    requires Runs(actions) && AllowedRun(USABLE, actions)
    requires p in After(actions).callers && q in After(actions).callers
    ensures var s := After(actions);
            && (s.callers[p].InFactory? && s.callers[q].InFactory? ==> p == q)
            && (s.callers[p].InFactory? ==> s.stored.None?)
            && (s.callers[p].Returned? ==> s.stored.Some? && s.callers[p].result == s.stored)
  {
    RunKeepsInv(actions);
    assert CallerOk(After(actions), p, After(actions).callers[p]);
    assert CallerOk(After(actions), q, After(actions).callers[q]);
  }

  /** Once stored, the value does not change: there is one success. */
  lemma {:induction false} StoredValueIsFinal(actions: seq<Action>, more: seq<Action>)
    requires Runs(actions + more) && AllowedRun(USABLE, actions + more)
    ensures Runs(actions) && AllowedRun(USABLE, actions)
    ensures After(actions).stored.Some? ==> After(actions + more).stored == After(actions).stored
    decreases |more|
  {
    if more == [] {
      assert actions + more == actions;
    } else {
      var init := more[..|more| - 1];
      var longer, last := actions + init, more[|more| - 1];
      assert (actions + more)[..|actions + more| - 1] == longer && (actions + more)[|actions + more| - 1] == last;
      StoredValueIsFinal(actions, init);
      RunKeepsInv(longer);
      if last.FactoryReturns? {
        assert CallerOk(After(longer), last.who, After(longer).callers[last.who]);
      }
    }
  }

  // ---------------------------------------------------------------- usability is needed

  lemma Snoc(may: Policy, actions: seq<Action>, a: Action, s: State, s': State) returns (longer: seq<Action>)
    requires Runs(actions) && AllowedRun(may, actions) && After(actions) == s
    requires Enabled(s, a) && Allowed(may, s, a) && Apply(s, a) == s'
    ensures longer == actions + [a] && Runs(longer) && AllowedRun(may, longer) && After(longer) == s'
  {
    hide Apply, Enabled, Allowed;
    longer := actions + [a];
    assert longer[..|longer| - 1] == actions;
  }

  /** A newcomer misses and waits for a lock. */
  lemma Arrives(may: Policy, actions: seq<Action>, s: State, who: nat, lock: nat) returns (longer: seq<Action>)
    requires Runs(actions) && AllowedRun(may, actions) && After(actions) == s && who !in s.callers
    requires s.stored.None? || may.stale
    requires s.registered == Some(lock) || (s.registered.None? && s.unused == lock)
    ensures Runs(longer) && AllowedRun(may, longer)
    ensures After(longer) == s.(registered := Some(lock), unused := if s.registered.None? then lock + 1 else s.unused,
                                callers := s.callers[who := Waiting(lock)])
  {
    hide Runs, After, AllowedRun;
    var s1 := Move(s, who, Entered);
    var s2 := Move(s1, who, Missed);
    longer := Snoc(may, actions, Enter(who), s, s1);
    longer := Snoc(may, longer, FastGet(who, false), s1, s2);
    longer := Snoc(may, longer, TakeReference(who), s2, Apply(s2, TakeReference(who)));
    assert s2.callers[who := Waiting(lock)] == s.callers[who := Waiting(lock)];
  }

  lemma EntersFactory(may: Policy, actions: seq<Action>, s: State, who: nat, lock: nat) returns (longer: seq<Action>)
    requires Runs(actions) && AllowedRun(may, actions) && After(actions) == s
    requires At(s, who, Waiting(lock)) && lock !in s.owners && (s.stored.None? || may.stale)
    ensures Runs(longer) && AllowedRun(may, longer)
    ensures After(longer) == s.(owners := s.owners[lock := who], callers := s.callers[who := InFactory(lock)])
  {
    hide Runs, After, AllowedRun;
    var s1 := Apply(s, AcquireLock(who));
    longer := Snoc(may, actions, AcquireLock(who), s, s1);
    longer := Snoc(may, longer, Recheck(who, false), s1, Apply(s1, Recheck(who, false)));
    assert s1.callers[who := InFactory(lock)] == s.callers[who := InFactory(lock)];
  }

  /** The first caller is in its factory and the second waits for the same lock. */
  lemma OneInFactory(may: Policy) returns (actions: seq<Action>)
    ensures Runs(actions) && AllowedRun(may, actions)
    ensures After(actions) == State(None, Some(0), map[0 := 0], 1, map[0 := InFactory(0), 1 := Waiting(0)])
  {
    assert Runs([]) && After([]) == START && AllowedRun(may, []);
    hide Runs, After, AllowedRun;
    actions := Arrives(may, [], START, 0, 0);
    var s1 := START.(registered := Some(0), unused := 1, callers := map[0 := Waiting(0)]);
    assert START.callers[0 := Waiting(0)] == s1.callers;
    actions := Arrives(may, actions, s1, 1, 0);
    var s2 := s1.(callers := map[0 := Waiting(0), 1 := Waiting(0)]);
    assert s1.callers[1 := Waiting(0)] == s2.callers;
    actions := EntersFactory(may, actions, s2, 0, 0);
    assert s2.owners[0 := 0] == map[0 := 0];
    assert s2.callers[0 := InFactory(0)] == map[0 := InFactory(0), 1 := Waiting(0)];
  }

  /** The first caller is done and has dropped the lock, and the waiter cannot use what is stored. */
  lemma FirstIsDone(may: Policy, value: Value) returns (actions: seq<Action>, stored: Option<Value>)
    requires may != USABLE
    ensures Runs(actions) && AllowedRun(may, actions) && (stored.None? || may.stale)
    ensures stored == if may.none || may.forgotten then None else Some(value)
    ensures After(actions)
            == State(stored, None, map[], 1, map[0 := Returned(if may.none then None else Some(value)), 1 := Waiting(0)])
  {
    hide Runs, After, AllowedRun;
    var result := if may.none then None else Some(value);
    stored := if may.forgotten then None else result;
    actions := OneInFactory(may);
    var s3 := After(actions);
    var s4 := State(result, Some(0), map[], 1, map[0 := Popping(result), 1 := Waiting(0)]);
    assert s3.owners - {0} == s4.owners && s3.callers[0 := Popping(result)] == s4.callers;
    actions := Snoc(may, actions, FactoryReturns(0, result), s3, s4);
    if may.forgotten {
      actions := Snoc(may, actions, Forget, s4, s4.(stored := stored));
    }
    var s5 := State(stored, None, map[], 1, map[0 := Returned(result), 1 := Waiting(0)]);
    assert s4.callers[0 := Returned(result)] == s5.callers;
    actions := Snoc(may, actions, PopLock(0), s4.(stored := stored), s5);
  }

  /** As soon as a factory may return None, or the value may be forgotten, or callers may look with
      a time to live that it is past, two callers can be in their factories at once: the waiter
      on the dropped lock and a newcomer with a new lock. In the last case the value is still
      stored all along. */
  lemma OverlapWithoutUsableValue(may: Policy, value: Value) returns (actions: seq<Action>)
    requires may != USABLE
    ensures Runs(actions) && AllowedRun(may, actions)
    ensures var s := After(actions);
            && s.callers == map[0 := Returned(if may.none then None else Some(value)), 1 := InFactory(0), 2 := InFactory(1)]
            && (!may.none && !may.forgotten ==> s.stored == Some(value))
  {
    hide Runs, After, AllowedRun;
    var stored: Option<Value>;
    actions, stored := FirstIsDone(may, value);
    var s5 := After(actions);
    actions := Arrives(may, actions, s5, 2, 1);
    var s6 := s5.(registered := Some(1), unused := 2, callers := s5.callers[2 := Waiting(1)]);
    actions := EntersFactory(may, actions, s6, 1, 0);
    var s7 := s6.(owners := s6.owners[0 := 1], callers := s6.callers[1 := InFactory(0)]);
    actions := EntersFactory(may, actions, s7, 2, 1);
  }

  /** At most one caller is in its factory. */
  ghost predicate OneFactory(s: State) {
    forall p, q | p in s.callers && q in s.callers && s.callers[p].InFactory? && s.callers[q].InFactory? :: p == q
  }

  ghost predicate AlwaysOneFactory(may: Policy) {
    forall actions | Runs(actions) && AllowedRun(may, actions) :: OneFactory(After(actions))
  }

  /** Main result: factories never overlap, in any interleaving that keeps to a policy, if and only
      if the policy allows none of the three: a factory returning None, a value forgotten, and
      a look with a time to live that the value is past. */
  lemma ExactlyOnceIff(may: Policy)
    ensures AlwaysOneFactory(may) <==> !may.none && !may.forgotten && !may.stale
  {
    hide Runs, After, AllowedRun;
    if may == USABLE {
      forall actions | Runs(actions) && AllowedRun(may, actions) ensures OneFactory(After(actions)) {
        var s := After(actions);
        forall p, q | p in s.callers && q in s.callers && s.callers[p].InFactory? && s.callers[q].InFactory? ensures p == q {
          FactoriesDoNotOverlap(actions, p, q);
        }
      }
    } else {
      var actions := OverlapWithoutUsableValue(may, "v");
      var s := After(actions);
      assert 1 in s.callers && 2 in s.callers && s.callers[1].InFactory? && s.callers[2].InFactory?;
      assert !OneFactory(s);
    }
  }
}
