/** The disk-full cordon of a host (backend/disk_full_cordon.py): one tick of its hysteresis
    state machine, and what every run of ticks from the initial state keeps. */
module Cordon {
  import opened Common

  datatype Phase = Normal | Tripping | Cordoned

  datatype Action = MaintenanceOn | MaintenanceOff | Stop(unit: string, force: bool) | Cleanup

  datatype Runner = Runner(unit: string, active: bool, busy: bool)

  datatype State = State(phase: Phase, trippedAt: Option<real>, cleanupDone: bool, lastProactive: Option<real>)

  datatype Config = Config(
    tripFree: real, readmitFree: real, tripUsed: real, readmitUsed: real,
    finishRunningJobs: bool, timeout: real, minOnline: int)

  datatype Tick = Tick(
    state: State, actions: seq<Action>, schedulingInhibited: bool, minOnline: Option<int>, cordonActive: bool)

  /** Raised when a tripping state has no time of tripping. */
  datatype Error = AssertionError

  /** What a tick observes. */
  datatype Sample = Sample(free: real, used: real, runners: seq<Runner>, now: real)

  const INITIAL := State(Normal, None, false, None)

  const PROACTIVE_USED := 75.0
  const PROACTIVE_FREE := 80.0
  const PROACTIVE_COOLDOWN := 3600.0

  predicate ProactiveCleanupNeeded(free: real, used: real) {
    used >= PROACTIVE_USED || free < PROACTIVE_FREE
  }

  predicate Trips(free: real, used: real, cfg: Config) {
    free < cfg.tripFree || used >= cfg.tripUsed
  }

  predicate AllowsReadmit(free: real, used: real, cfg: Config) {
    free >= cfg.readmitFree && used <= cfg.readmitUsed
  }

  predicate AnyActive(runners: seq<Runner>) {
    exists i | 0 <= i < |runners| :: runners[i].active
  }

  /** The stops planned for the active runners; busy ones are left alone unless forced. */
  function Stops(runners: seq<Runner>, force: bool): seq<Action> {
    if runners == [] then []
    else
      var r := runners[|runners| - 1];
      Stops(runners[..|runners| - 1], force)
      + if r.active && (!r.busy || force) then [Stop(r.unit, force && r.busy)] else []
  }

  function StoppedUnits(actions: seq<Action>): set<string> {
    if actions == [] then {}
    else
      var a := actions[|actions| - 1];
      StoppedUnits(actions[..|actions| - 1]) + if a.Stop? && a.unit != "" then {a.unit} else {}
  }

  /** Without the second and later stops of a unit. */
  function Dedupe(actions: seq<Action>): seq<Action> {
    if actions == [] then []
    else
      var init, a := actions[..|actions| - 1], actions[|actions| - 1];
      Dedupe(init) + if a.Stop? && a.unit in StoppedUnits(init) then [] else [a]
  }

  function Finished(s: State, actions: seq<Action>, cfg: Config): Tick {
    var active := !s.phase.Normal?;
    Tick(s, Dedupe(actions), active, if active then Some(cfg.minOnline) else None, active)
  }

  predicate ProactiveDue(s: State, x: Sample) {
    ProactiveCleanupNeeded(x.free, x.used)
    && (s.lastProactive.None? || x.now - s.lastProactive.value >= PROACTIVE_COOLDOWN)
  }

  predicate ForceStop(cfg: Config, trippedAt: real, now: real) {
    !cfg.finishRunningJobs || now - trippedAt >= cfg.timeout
  }

  /** A tick that is, or has just become, tripping. */
  function Drain(s: State, at: real, cfg: Config, x: Sample, actions: seq<Action>): Tick {
    Finished(if AnyActive(x.runners) then s else s.(phase := Cordoned),
             actions + Stops(x.runners, ForceStop(cfg, at, x.now)), cfg)
  }

  function Plan(s: State, cfg: Config, x: Sample): Result<Tick, Error> {
    match s.phase
    case Normal =>
      if Trips(x.free, x.used, cfg) then
        Ok(Drain(s.(phase := Tripping, trippedAt := Some(x.now)), x.now, cfg, x, [MaintenanceOn]))
      else if ProactiveDue(s, x) then Ok(Finished(s.(lastProactive := Some(x.now)), [Cleanup], cfg))
      else Ok(Finished(s, [], cfg))
    case Tripping =>
      if s.trippedAt.None? then Err(AssertionError) else Ok(Drain(s, s.trippedAt.value, cfg, x, []))
    case Cordoned =>
      if !s.cleanupDone then Ok(Finished(s.(cleanupDone := true), [Cleanup], cfg))
      else if AllowsReadmit(x.free, x.used, cfg) then Ok(Finished(INITIAL, [MaintenanceOff], cfg))
      else Ok(Finished(s, [], cfg))
  }

  method FinishTick(s: State, actions: seq<Action>, cfg: Config) returns (t: Tick)
    ensures t == Finished(s, actions, cfg)
  {
    var cordonActive := !s.phase.Normal?;
    var deduped := [];
    var seenStops := {};
    for i := 0 to |actions|
      invariant deduped == Dedupe(actions[..i]) && seenStops == StoppedUnits(actions[..i])
    {
      assert actions[..i + 1][..i] == actions[..i];
      UnitsAreNamed(actions[..i]);
      var action := actions[i];
      if action.Stop? && action.unit != "" {
        if action.unit in seenStops {
          continue;
        }
        seenStops := seenStops + {action.unit};
      }
      deduped := deduped + [action];
    }
    assert actions[..|actions|] == actions;
    return Tick(s, deduped, cordonActive, if cordonActive then Some(cfg.minOnline) else None, cordonActive);
  }

  lemma {:induction false} UnitsAreNamed(actions: seq<Action>)
    ensures "" !in StoppedUnits(actions)
  {
    if actions != [] {
      UnitsAreNamed(actions[..|actions| - 1]);
    }
  }

  method PlanStops(runners: seq<Runner>, forceStop: bool) returns (stops: seq<Action>, anyActive: bool)
    ensures stops == Stops(runners, forceStop) && anyActive == AnyActive(runners)
  {
    stops, anyActive := [], false;
    for i := 0 to |runners|
      invariant stops == Stops(runners[..i], forceStop) && anyActive == AnyActive(runners[..i])
    {
      assert runners[..i + 1][..i] == runners[..i];
      var runner := runners[i];
      anyActive := AnyOneMore(runners, i, anyActive);
      if !runner.active || (runner.busy && !forceStop) {
        continue;
      }
      stops := stops + [Stop(runner.unit, forceStop && runner.busy)];
    }
    assert runners[..|runners|] == runners;
  }

  method PlanCordonTick(s: State, cfg: Config, x: Sample) returns (r: Result<Tick, Error>)
    ensures r == Plan(s, cfg, x)
  {
    hide Dedupe, Trips, AllowsReadmit, Stops, AnyActive;
    var actions := [];
    var next := s;
    var tick: Tick;
    if s.phase.Normal? {
      if Trips(x.free, x.used, cfg) {
        next := next.(phase := Tripping, trippedAt := Some(x.now));
        actions := actions + [MaintenanceOn];
        assert actions == [MaintenanceOn];
      } else {
        if ProactiveCleanupNeeded(x.free, x.used)
          && (s.lastProactive.None? || x.now - s.lastProactive.value >= PROACTIVE_COOLDOWN)
        {
          next := next.(lastProactive := Some(x.now));
          actions := actions + [Cleanup];
        }
        assert actions == Lead(s, cfg, x);
        tick := FinishTick(next, actions, cfg);
        return Ok(tick);
      }
    }
    if next.phase.Tripping? {
      if next.trippedAt.None? {
        return Err(AssertionError);
      }
      var drainElapsed := x.now - next.trippedAt.value;
      var forceStop := !cfg.finishRunningJobs || drainElapsed >= cfg.timeout;
      var stops, anyActive := PlanStops(x.runners, forceStop);
      actions := actions + stops;
      if !anyActive {
        next := next.(phase := Cordoned);
      }
      tick := FinishTick(next, actions, cfg);
      return Ok(tick);
    }
    if !s.cleanupDone {
      actions := actions + [Cleanup];
      next := next.(cleanupDone := true);
    } else if AllowsReadmit(x.free, x.used, cfg) {
      next := State(Normal, None, false, None);
      actions := actions + [MaintenanceOff];
    }
    assert actions == Lead(s, cfg, x);
    tick := FinishTick(next, actions, cfg);
    return Ok(tick);
  }

  function AnyOneMore(runners: seq<Runner>, i: nat, any: bool): (r: bool)
    requires i < |runners| && any == AnyActive(runners[..i])
    ensures r == AnyActive(runners[..i + 1])
  {
    assert AnyActive(runners[..i + 1]) == (any || runners[i].active) by {
      assert forall k | 0 <= k < i :: runners[..i + 1][k] == runners[..i][k];
      if AnyActive(runners[..i]) {
        var k :| 0 <= k < i && runners[..i][k].active;
        assert runners[..i + 1][k].active;
      }
      assert runners[..i + 1][i] == runners[i];
    }
    any || runners[i].active
  }

  // ---------------------------------------------------------------- stops

  lemma {:induction false} StopsAre(runners: seq<Runner>, force: bool, a: Action)
    ensures a in Stops(runners, force)
            <==> a.Stop? && exists r :: r in runners && r.active && (!r.busy || force) && r.unit == a.unit && a.force == (force && r.busy)
  {
    if runners != [] {
      var init, last := runners[..|runners| - 1], runners[|runners| - 1];
      StopsAre(init, force, a);
      assert forall r :: r in runners <==> r in init || r == last;
    }
  }

  lemma {:induction false} DedupeIsPart(actions: seq<Action>, a: Action)
    requires a in Dedupe(actions)
    ensures a in actions
  {
    var init, last := actions[..|actions| - 1], actions[|actions| - 1];
    assert actions == init + [last];
    if a in Dedupe(init) {
      DedupeIsPart(init, a);
    }
  }

  /** Deduplication stops the same named units, each once. */
  lemma {:induction false} EachUnitIsStoppedOnce(actions: seq<Action>)
    ensures StoppedUnits(Dedupe(actions)) == StoppedUnits(actions)
    ensures var d := Dedupe(actions);
            forall i, j | 0 <= i < j < |d| && d[i].Stop? && d[j].Stop? && d[i].unit != "" :: d[i].unit != d[j].unit
  {
    if actions != [] {
      var init, last := actions[..|actions| - 1], actions[|actions| - 1];
      EachUnitIsStoppedOnce(init);
      var d := Dedupe(init);
      forall i | 0 <= i < |d| && d[i].Stop? && d[i].unit != "" ensures d[i].unit in StoppedUnits(d) {
        UnitOf(d, i);
      }
      hide StoppedUnits;
      UnitsSnoc(init, last);
      UnitsSnoc(d, last);
      assert init + [last] == actions;
      if last.Stop? && last.unit in StoppedUnits(init) {
        assert Dedupe(actions) == d;
      } else {
        var all := d + [last];
        assert Dedupe(actions) == all;
        forall i, j | 0 <= i < j < |all| && all[i].Stop? && all[j].Stop? && all[i].unit != ""
          ensures all[i].unit != all[j].unit
        {
          assert all[i] == d[i];
        }
      }
    }
  }

  lemma UnitsSnoc(actions: seq<Action>, a: Action)
    ensures StoppedUnits(actions + [a]) == StoppedUnits(actions) + if a.Stop? && a.unit != "" then {a.unit} else {}
  {
    assert (actions + [a])[..|actions|] == actions;
  }

  lemma {:induction false} UnitOf(actions: seq<Action>, i: nat)
    requires i < |actions| && actions[i].Stop? && actions[i].unit != ""
    ensures actions[i].unit in StoppedUnits(actions)
  {
    if i < |actions| - 1 {
      UnitOf(actions[..|actions| - 1], i);
    }
  }

  // ---------------------------------------------------------------- runs

  /** The state and the actions of each tick after a run from the initial state. */
  datatype History = History(state: State, ticks: seq<seq<Action>>)

  function Run(cfg: Config, xs: seq<Sample>): Result<History, Error> {
    if xs == [] then Ok(History(INITIAL, []))
    else
      match Run(cfg, xs[..|xs| - 1])
      case Err(e) => Err(e)
      case Ok(h) =>
        match Plan(h.state, cfg, xs[|xs| - 1])
        case Err(e) => Err(e)
        case Ok(t) => Ok(History(t.state, h.ticks + [t.actions]))
  }

  /** The maintenance switches among the actions, true for on. */
  function Switches(actions: seq<Action>): seq<bool> {
    if actions == [] then []
    else
      var a := actions[|actions| - 1];
      Switches(actions[..|actions| - 1]) + if a.MaintenanceOn? then [true] else if a.MaintenanceOff? then [false] else []
  }

  function AllSwitches(ticks: seq<seq<Action>>): seq<bool> {
    if ticks == [] then [] else AllSwitches(ticks[..|ticks| - 1]) + Switches(ticks[|ticks| - 1])
  }

  /** On, off, on, off and so on. */
  predicate Alternate(switches: seq<bool>) {
    (switches != [] ==> switches[0]) && forall i | 0 < i < |switches| :: switches[i] != switches[i - 1]
  }

  predicate EndsOn(switches: seq<bool>) {
    switches != [] && switches[|switches| - 1]
  }

  lemma AlternateSnoc(switches: seq<bool>, on: bool)
    requires Alternate(switches) && on != EndsOn(switches)
    ensures Alternate(switches + [on]) && EndsOn(switches + [on]) == on
  {
  }

  function Cleanups(actions: seq<Action>): nat {
    if actions == [] then 0
    else Cleanups(actions[..|actions| - 1]) + if actions[|actions| - 1].Cleanup? then 1 else 0
  }

  /** The cleanups since maintenance was last switched on. */
  function EpisodeCleanups(ticks: seq<seq<Action>>): nat {
    if ticks == [] then 0
    else
      var last := ticks[|ticks| - 1];
      (if MaintenanceOn in last then 0 else EpisodeCleanups(ticks[..|ticks| - 1])) + Cleanups(last)
  }

  /** When maintenance was last switched on. */
  function LastOn(xs: seq<Sample>, ticks: seq<seq<Action>>): Option<real>
    requires |ticks| == |xs|
  {
    if ticks == [] then None
    else if MaintenanceOn in ticks[|ticks| - 1] then Some(xs[|xs| - 1].now)
    else LastOn(xs[..|xs| - 1], ticks[..|ticks| - 1])
  }

  /** Stops after a leading action change neither the switches nor the cleanups. */
  lemma {:induction false} StopsOnly(head: seq<Action>, stops: seq<Action>)
    requires |head| <= 1 && (forall a :: a in head ==> !a.Stop?) && forall i | 0 <= i < |stops| :: stops[i].Stop?
    ensures Switches(Dedupe(head + stops)) == Switches(head)
    ensures Cleanups(Dedupe(head + stops)) == Cleanups(head)
    ensures MaintenanceOn in Dedupe(head + stops) <==> MaintenanceOn in head
    decreases |stops|
  {
    if stops == [] {
      assert head + stops == head;
      DedupeOne(head);
    } else {
      var less, a := stops[..|stops| - 1], stops[|stops| - 1];
      StopsOnly(head, less);
      hide Switches, Cleanups, StoppedUnits, Dedupe;
      assert head + stops == (head + less) + [a];
      DedupeSnoc(head + less, a);
      SwitchesSnoc(Dedupe(head + less), a);
    }
  }

  lemma DedupeOne(head: seq<Action>)
    requires |head| <= 1 && forall a :: a in head ==> !a.Stop?
    ensures Dedupe(head) == head
  {
    if head != [] {
      assert head[..0] == [] && head == [head[0]];
    }
  }

  lemma DedupeSnoc(actions: seq<Action>, a: Action)
    ensures Dedupe(actions + [a]) == Dedupe(actions) || Dedupe(actions + [a]) == Dedupe(actions) + [a]
  {
    assert (actions + [a])[..|actions|] == actions;
  }

  lemma SwitchesSnoc(actions: seq<Action>, a: Action)
    ensures a.Stop? ==> Switches(actions + [a]) == Switches(actions) && Cleanups(actions + [a]) == Cleanups(actions)
  {
    assert (actions + [a])[..|actions|] == actions;
    assert Switches(actions) + [] == Switches(actions);
  }

  /** What a successful tick does, by the phase it starts in. */
  lemma TickShape(s: State, cfg: Config, x: Sample)
    requires Plan(s, cfg, x).Ok?
    ensures var t := Plan(s, cfg, x).value;
            var head := Lead(s, cfg, x);
            && Switches(t.actions) == Switches(head) && Cleanups(t.actions) == Cleanups(head)
            && (MaintenanceOn in t.actions <==> MaintenanceOn in head)
  {
    var head := Lead(s, cfg, x);
    var at := if s.phase.Normal? then x.now else if s.trippedAt.Some? then s.trippedAt.value else 0.0;
    var force := ForceStop(cfg, at, x.now);
    var drains := s.phase.Tripping? || (s.phase.Normal? && Trips(x.free, x.used, cfg));
    var stops := if drains then Stops(x.runners, force) else [];
    forall i | 0 <= i < |stops| ensures stops[i].Stop? {
      assert stops[i] in stops;
      StopsAre(x.runners, force, stops[i]);
    }
    hide Switches, Cleanups, Dedupe, Stops;
    assert head + [] == head;
    StopsOnly(head, stops);
    assert Plan(s, cfg, x).value.actions == Dedupe(head + stops);
  }

  /** The action a tick starts with, if any. */
  function Lead(s: State, cfg: Config, x: Sample): seq<Action> {
    match s.phase
    case Normal =>
      if Trips(x.free, x.used, cfg) then [MaintenanceOn] else if ProactiveDue(s, x) then [Cleanup] else []
    case Tripping => []
    case Cordoned =>
      if !s.cleanupDone then [Cleanup] else if AllowsReadmit(x.free, x.used, cfg) then [MaintenanceOff] else []
  }

  lemma LeadFacts()
    ensures Switches([]) == [] && Cleanups([]) == 0
    ensures Switches([MaintenanceOn]) == [true] && Cleanups([MaintenanceOn]) == 0
    ensures Switches([MaintenanceOff]) == [false] && Cleanups([MaintenanceOff]) == 0
    ensures Switches([Cleanup]) == [] && Cleanups([Cleanup]) == 1
  {
    assert [MaintenanceOn][..0] == [] && [MaintenanceOff][..0] == [] && [Cleanup][..0] == [];
  }

  predicate Inv(xs: seq<Sample>, h: History) {
    && |h.ticks| == |xs|
    && Alternate(AllSwitches(h.ticks))
    && (EndsOn(AllSwitches(h.ticks)) <==> !h.state.phase.Normal?)
    && (h.state.phase.Normal? ==> !h.state.cleanupDone)
    && (h.state.phase.Tripping? ==>
          !h.state.cleanupDone && h.state.trippedAt.Some? && LastOn(xs, h.ticks) == h.state.trippedAt)
    && (!h.state.phase.Normal? ==> EpisodeCleanups(h.ticks) == if h.state.cleanupDone then 1 else 0)
  }

  /** The switches and cleanups of a tick, and the state it leads to. */
  lemma TickDoes(s: State, cfg: Config, x: Sample)
    requires s.phase.Tripping? ==> s.trippedAt.Some? && !s.cleanupDone
    requires s.phase.Normal? ==> !s.cleanupDone
    ensures Plan(s, cfg, x).Ok?
    ensures var t := Plan(s, cfg, x).value;
            var on := s.phase.Normal? && !t.state.phase.Normal?;
            var off := s.phase.Cordoned? && t.state.phase.Normal?;
            && Switches(t.actions) == (if on then [true] else if off then [false] else [])
            && (MaintenanceOn in t.actions <==> on)
            && (s.phase.Tripping? ==> !t.state.phase.Normal?)
            && (!t.state.phase.Normal? ==>
                  Cleanups(t.actions) + (if s.cleanupDone then 1 else 0) == if t.state.cleanupDone then 1 else 0)
            && (t.state.phase.Tripping? ==> t.state.trippedAt == if on then Some(x.now) else s.trippedAt)
            && (t.state.phase.Tripping? ==> !t.state.cleanupDone && !s.phase.Cordoned?)
            && (t.state.phase.Normal? ==> !t.state.cleanupDone)
  {
    hide Switches, Cleanups, Dedupe, Stops, Trips, AllowsReadmit, ProactiveDue, AnyActive, ForceStop;
    TickLeadsTo(s, cfg, x);
    TickShape(s, cfg, x);
    hide Plan;
    LeadFacts();
  }

  lemma TickLeadsTo(s: State, cfg: Config, x: Sample)
    requires s.phase.Tripping? ==> s.trippedAt.Some? && !s.cleanupDone
    requires s.phase.Normal? ==> !s.cleanupDone
    ensures Plan(s, cfg, x).Ok?
    ensures var now := Plan(s, cfg, x).value.state;
            var head := Lead(s, cfg, x);
            && head == (if s.phase.Normal? && !now.phase.Normal? then [MaintenanceOn]
                        else if s.phase.Cordoned? && now.phase.Normal? then [MaintenanceOff]
                        else if head == [Cleanup] then [Cleanup] else [])
            && (s.phase.Tripping? ==> !now.phase.Normal? && head == [])
            && (!now.phase.Normal? ==>
                  (if head == [Cleanup] then 1 else 0) + (if s.cleanupDone then 1 else 0) == if now.cleanupDone then 1 else 0)
            && (now.phase.Tripping? ==>
                  now.trippedAt == (if s.phase.Normal? then Some(x.now) else s.trippedAt) && !now.cleanupDone && !s.phase.Cordoned?)
            && (now.phase.Normal? ==> !now.cleanupDone)
  {
    hide Dedupe, Stops, Trips, AllowsReadmit, ProactiveDue, AnyActive, ForceStop;
  }

  lemma TicksSnoc(ticks: seq<seq<Action>>, actions: seq<Action>)
    ensures AllSwitches(ticks + [actions]) == AllSwitches(ticks) + Switches(actions)
    ensures EpisodeCleanups(ticks + [actions])
            == (if MaintenanceOn in actions then 0 else EpisodeCleanups(ticks)) + Cleanups(actions)
  {
    assert (ticks + [actions])[..|ticks|] == ticks;
  }

  lemma StepKeepsInv(cfg: Config, xs: seq<Sample>, h: History, x: Sample)
    requires Inv(xs, h)
    ensures Plan(h.state, cfg, x).Ok?
    ensures var t := Plan(h.state, cfg, x).value;
            Inv(xs + [x], History(t.state, h.ticks + [t.actions]))
  {
    TickDoes(h.state, cfg, x);
    var t := Plan(h.state, cfg, x).value;
    TicksSnoc(h.ticks, t.actions);
    LastOnSnoc(xs, h.ticks, x, t.actions);
    hide Plan, Switches, AllSwitches, Cleanups, EpisodeCleanups, LastOn, Alternate, EndsOn;
    var was := AllSwitches(h.ticks);
    assert was + [] == was;
    if h.state.phase.Normal? != t.state.phase.Normal? {
      AlternateSnoc(was, h.state.phase.Normal?);
    }
  }

  lemma InitInv()
    ensures Inv([], History(INITIAL, []))
  {
  }

  /** Main result: no run fails; maintenance is switched on and off strictly in turn, and the
      last switch was on exactly when the phase is not normal. */
  lemma {:induction false} SwitchesAlternate(cfg: Config, xs: seq<Sample>)
    ensures Run(cfg, xs).Ok?
    ensures var h := Run(cfg, xs).value;
            && Inv(xs, h) && |h.ticks| == |xs|
            && Alternate(AllSwitches(h.ticks))
            && (EndsOn(AllSwitches(h.ticks)) <==> !h.state.phase.Normal?)
  {
    hide Inv, Plan, Alternate, AllSwitches, EndsOn;
    if xs == [] {
      InitInv();
    } else {
      var init, x := xs[..|xs| - 1], xs[|xs| - 1];
      SwitchesAlternate(cfg, init);
      assert init + [x] == xs;
      StepKeepsInv(cfg, init, Run(cfg, init).value, x);
    }
    InvSays(xs, Run(cfg, xs).value);
  }

  lemma InvSays(xs: seq<Sample>, h: History)
    requires Inv(xs, h)
    ensures |h.ticks| == |xs| && Alternate(AllSwitches(h.ticks))
    ensures EndsOn(AllSwitches(h.ticks)) <==> !h.state.phase.Normal?
  {
  }

  /** Where a run leads. */
  function After(cfg: Config, xs: seq<Sample>): (h: History)
    ensures Inv(xs, h)
  {
    SwitchesAlternate(cfg, xs);
    Run(cfg, xs).value
  }

  /** The tick after a run. */
  function Next(cfg: Config, xs: seq<Sample>, x: Sample): (t: Tick)
    ensures After(cfg, xs + [x]) == History(t.state, After(cfg, xs).ticks + [t.actions])
  {
    StepKeepsInv(cfg, xs, After(cfg, xs), x);
    assert (xs + [x])[..|xs|] == xs;
    Plan(After(cfg, xs).state, cfg, x).value
  }

  /** Main result: a tick readmits only when the disk allows it and after exactly one cleanup
      of the episode, which happened in an earlier tick; the flags say that the host is free
      again, and the same sample does not trip. */
  lemma ReadmissionIsEarned(cfg: Config, xs: seq<Sample>, x: Sample)
    requires MaintenanceOff in Next(cfg, xs, x).actions
    ensures var t := Next(cfg, xs, x);
            && EpisodeCleanups(After(cfg, xs).ticks) == 1 && Cleanups(t.actions) == 0
            && AllowsReadmit(x.free, x.used, cfg)
            && t.state == INITIAL && !t.cordonActive && !t.schedulingInhibited
    ensures cfg.readmitFree >= cfg.tripFree && cfg.readmitUsed < cfg.tripUsed ==> !Trips(x.free, x.used, cfg)
  {
    hide Run, Switches, Dedupe, Stops, EpisodeCleanups, Cleanups, AllSwitches, Alternate, LastOn;
    var h := After(cfg, xs);
    StepKeepsInv(cfg, xs, h, x);
    TickShape(h.state, cfg, x);
    LeadFacts();
    OffIsASwitch(Next(cfg, xs, x).actions);
  }

  lemma {:induction false} OffIsASwitch(actions: seq<Action>)
    ensures MaintenanceOff in actions ==> false in Switches(actions)
  {
    if actions != [] {
      OffIsASwitch(actions[..|actions| - 1]);
      assert actions == actions[..|actions| - 1] + [actions[|actions| - 1]];
    }
  }

  /** Thresholds let no sample both trip and readmit exactly when the readmit ones lie inside
      the trip ones. */
  lemma HysteresisIff(cfg: Config)
    ensures (forall free: real, used: real :: !(Trips(free, used, cfg) && AllowsReadmit(free, used, cfg)))
            <==> cfg.readmitFree >= cfg.tripFree && cfg.readmitUsed < cfg.tripUsed
  {
    if cfg.readmitFree < cfg.tripFree {
      assert Trips(cfg.readmitFree, cfg.readmitUsed, cfg) && AllowsReadmit(cfg.readmitFree, cfg.readmitUsed, cfg);
    }
    if cfg.readmitUsed >= cfg.tripUsed {
      assert Trips(cfg.readmitFree, cfg.readmitUsed, cfg) && AllowsReadmit(cfg.readmitFree, cfg.readmitUsed, cfg);
    }
  }

  /** Main result: a unit is stopped only while the host is cordoned off, only when one of its
      runners is active, and, when running jobs are to be finished, a busy one only once the
      drain timeout has passed since maintenance was switched on. */
  lemma StopsAreDue(cfg: Config, xs: seq<Sample>, x: Sample, a: Action)
    ensures var t := Next(cfg, xs, x);
            var since := LastOn(xs + [x], After(cfg, xs + [x]).ticks);
            a in t.actions && a.Stop? ==>
              && t.cordonActive && since.Some?
              && var due := !cfg.finishRunningJobs || x.now - since.value >= cfg.timeout;
                 exists r :: r in x.runners && r.active && r.unit == a.unit && (r.busy ==> due) && a.force == (due && r.busy)
  {
    hide Run, Switches, Stops, EpisodeCleanups, Cleanups, AllSwitches, Alternate, Trips, AnyActive;
    var h := After(cfg, xs);
    StepKeepsInv(cfg, xs, h, x);
    TickShape(h.state, cfg, x);
    var t := Next(cfg, xs, x);
    LastOnSnoc(xs, h.ticks, x, t.actions);
    if a in t.actions && a.Stop? {
      var at := if h.state.phase.Normal? then x.now else h.state.trippedAt.value;
      StopIsPlanned(h.state, cfg, x, a);
      hide Dedupe, Plan;
      StopsAre(x.runners, ForceStop(cfg, at, x.now), a);
    }
  }

  lemma LastOnSnoc(xs: seq<Sample>, ticks: seq<seq<Action>>, x: Sample, actions: seq<Action>)
    requires |ticks| == |xs|
    ensures LastOn(xs + [x], ticks + [actions]) == if MaintenanceOn in actions then Some(x.now) else LastOn(xs, ticks)
  {
    assert (xs + [x])[..|xs|] == xs && (ticks + [actions])[..|ticks|] == ticks;
  }

  lemma StopIsPlanned(s: State, cfg: Config, x: Sample, a: Action)
    requires Plan(s, cfg, x).Ok? && a in Plan(s, cfg, x).value.actions && a.Stop?
    ensures s.phase.Tripping? || (s.phase.Normal? && Trips(x.free, x.used, cfg))
    ensures var at := if s.phase.Normal? then x.now else s.trippedAt.value;
            a in Stops(x.runners, ForceStop(cfg, at, x.now))
    ensures Plan(s, cfg, x).value.cordonActive
  {
    hide Dedupe, Stops, Trips;
    var at := if s.phase.Normal? then x.now else if s.trippedAt.Some? then s.trippedAt.value else 0.0;
    var stops := Stops(x.runners, ForceStop(cfg, at, x.now));
    var lead := Lead(s, cfg, x);
    var actions := if s.phase.Tripping? || (s.phase.Normal? && Trips(x.free, x.used, cfg)) then lead + stops else lead;
    assert [] + stops == stops;
    assert Plan(s, cfg, x).value.actions == Dedupe(actions);
    DedupeIsPart(actions, a);
  }

  /** Main result: a draining tick stops every named runner that is active and either idle or
      out of time, each unit once, and the cordon is complete when none is active. */
  lemma DrainStopsWhatItMay(cfg: Config, xs: seq<Sample>, x: Sample, r: Runner)
    requires After(cfg, xs).state.phase.Tripping? || (After(cfg, xs).state.phase.Normal? && Trips(x.free, x.used, cfg))
    requires r in x.runners && r.active && r.unit != ""
    requires !r.busy || !cfg.finishRunningJobs
             || (After(cfg, xs).state.phase.Tripping? && x.now - After(cfg, xs).state.trippedAt.value >= cfg.timeout)
    ensures r.unit in StoppedUnits(Next(cfg, xs, x).actions) && Next(cfg, xs, x).state.phase.Tripping?
  {
    StepKeepsInv(cfg, xs, After(cfg, xs), x);
    InvTripping(xs, After(cfg, xs));
    DrainPlan(After(cfg, xs).state, cfg, x, r);
    hide *;
  }

  lemma InvTripping(xs: seq<Sample>, h: History)
    requires Inv(xs, h)
    ensures h.state.phase.Tripping? ==> h.state.trippedAt.Some?
  {
  }

  lemma DrainPlan(s: State, cfg: Config, x: Sample, r: Runner)
    requires (s.phase.Tripping? && s.trippedAt.Some?) || (s.phase.Normal? && Trips(x.free, x.used, cfg))
    requires r in x.runners && r.active && r.unit != ""
    requires !r.busy || !cfg.finishRunningJobs || (s.phase.Tripping? && x.now - s.trippedAt.value >= cfg.timeout)
    ensures Plan(s, cfg, x).Ok? && Plan(s, cfg, x).value.state.phase.Tripping?
    ensures r.unit in StoppedUnits(Plan(s, cfg, x).value.actions)
  {
    hide Dedupe, StoppedUnits, Trips, Stops;
    var at := if s.phase.Normal? then x.now else s.trippedAt.value;
    var force := ForceStop(cfg, at, x.now);
    var stops := Stops(x.runners, force);
    var actions := Lead(s, cfg, x) + stops;
    assert [] + stops == stops;
    assert Plan(s, cfg, x).value.actions == Dedupe(actions);
    var k :| 0 <= k < |x.runners| && x.runners[k] == r;
    assert x.runners[k].active;
    assert Plan(s, cfg, x).value.state.phase.Tripping?;
    StopsHold(x.runners, force, r, Lead(s, cfg, x));
  }

  lemma StopsHold(runners: seq<Runner>, force: bool, r: Runner, lead: seq<Action>)
    requires r in runners && r.active && r.unit != "" && (!r.busy || force)
    ensures r.unit in StoppedUnits(Dedupe(lead + Stops(runners, force)))
  {
    var stop := Stop(r.unit, force && r.busy);
    StopsAre(runners, force, stop);
    hide *;
    var actions := lead + Stops(runners, force);
    assert stop in actions;
    var i :| 0 <= i < |actions| && actions[i] == stop;
    UnitOf(actions, i);
    EachUnitIsStoppedOnce(actions);
  }
}
