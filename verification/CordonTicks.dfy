/** What every tick of the cordon does, told by the ticks before it: by the maintenance switches,
    the cleanups and the runners seen so far. */
module CordonTicks {
  import opened Common
  import opened Cordon

  /** Since maintenance was last switched on, some tick saw no active runner. */
  ghost predicate Drained(xs: seq<Sample>, ticks: seq<seq<Action>>)
    requires |ticks| == |xs|
  {
    ticks != []
    && ((forall r :: r in xs[|xs| - 1].runners ==> !r.active)
        || (MaintenanceOn !in ticks[|ticks| - 1] && Drained(xs[..|xs| - 1], ticks[..|ticks| - 1])))
  }

  /** When the disk was last cleaned outside an episode, since the last readmission. */
  function LastProactive(xs: seq<Sample>, ticks: seq<seq<Action>>): Option<real>
    requires |ticks| == |xs|
  {
    if ticks == [] || MaintenanceOff in ticks[|ticks| - 1] then None
    else if Cleanup in ticks[|ticks| - 1] && !EndsOn(AllSwitches(ticks)) then Some(xs[|xs| - 1].now)
    else LastProactive(xs[..|xs| - 1], ticks[..|ticks| - 1])
  }

  ghost predicate Remembers(xs: seq<Sample>, h: History) {
    && |h.ticks| == |xs|
    && h.state.lastProactive == LastProactive(xs, h.ticks)
    && (h.state.phase.Cordoned? <==> EndsOn(AllSwitches(h.ticks)) && Drained(xs, h.ticks))
  }

  lemma {:induction false} CleanupIn(actions: seq<Action>)
    ensures Cleanup in actions <==> Cleanups(actions) > 0
    ensures MaintenanceOff in actions <==> false in Switches(actions)
    ensures MaintenanceOn in actions <==> true in Switches(actions)
  {
    if actions != [] {
      CleanupIn(actions[..|actions| - 1]);
      assert actions == actions[..|actions| - 1] + [actions[|actions| - 1]];
    }
  }

  /** The leading action of a tick is in it, and no other of its kind. */
  lemma LeadIsIn(s: State, cfg: Config, x: Sample)
    requires Plan(s, cfg, x).Ok?
    ensures var actions, head := Plan(s, cfg, x).value.actions, Lead(s, cfg, x);
            && (Cleanup in actions <==> head == [Cleanup])
            && (MaintenanceOff in actions <==> head == [MaintenanceOff])
            && (MaintenanceOn in actions <==> head == [MaintenanceOn])
  {
    hide Plan, Trips, AllowsReadmit, ProactiveDue, Switches, Cleanups, Lead;
    TickShape(s, cfg, x);
    LeadFacts();
    CleanupIn(Plan(s, cfg, x).value.actions);
    LeadIsOne(s, cfg, x);
  }

  lemma LeadIsOne(s: State, cfg: Config, x: Sample)
    ensures var head := Lead(s, cfg, x); head == [] || head == [Cleanup] || head == [MaintenanceOff] || head == [MaintenanceOn]
  {
    hide Trips, AllowsReadmit, ProactiveDue;
  }

  lemma HistorySnoc(xs: seq<Sample>, h: History, x: Sample, t: Tick)
    requires |h.ticks| == |xs|
    ensures var ys, ticks := xs + [x], h.ticks + [t.actions];
            && LastProactive(ys, ticks)
               == (if MaintenanceOff in t.actions then None
                   else if Cleanup in t.actions && !EndsOn(AllSwitches(ticks)) then Some(x.now)
                   else LastProactive(xs, h.ticks))
            && (Drained(ys, ticks) <==>
                (forall r :: r in x.runners ==> !r.active) || (MaintenanceOn !in t.actions && Drained(xs, h.ticks)))
  {
    assert (xs + [x])[..|xs|] == xs && (h.ticks + [t.actions])[..|h.ticks|] == h.ticks;
    hide *;
    LastSnoc(xs, h.ticks, x, t.actions);
    DrainedSnoc(xs, h.ticks, x, t.actions);
  }

  lemma LastSnoc(xs: seq<Sample>, ticks: seq<seq<Action>>, x: Sample, actions: seq<Action>)
    requires |ticks| == |xs| && (xs + [x])[..|xs|] == xs && (ticks + [actions])[..|ticks|] == ticks
    ensures LastProactive(xs + [x], ticks + [actions])
            == (if MaintenanceOff in actions then None
                else if Cleanup in actions && !EndsOn(AllSwitches(ticks + [actions])) then Some(x.now)
                else LastProactive(xs, ticks))
  {
    hide EndsOn, AllSwitches;
  }

  lemma DrainedSnoc(xs: seq<Sample>, ticks: seq<seq<Action>>, x: Sample, actions: seq<Action>)
    requires |ticks| == |xs| && (xs + [x])[..|xs|] == xs && (ticks + [actions])[..|ticks|] == ticks
    ensures Drained(xs + [x], ticks + [actions])
            <==> (forall r :: r in x.runners ==> !r.active) || (MaintenanceOn !in actions && Drained(xs, ticks))
  {
  }

  lemma AnyActiveIff(runners: seq<Runner>)
    ensures AnyActive(runners) <==> exists r :: r in runners && r.active
  {
    if AnyActive(runners) {
      var i :| 0 <= i < |runners| && runners[i].active;
      assert runners[i] in runners;
    }
  }

  lemma TickState(s: State, cfg: Config, x: Sample)
    requires Plan(s, cfg, x).Ok?
    ensures var now, head := Plan(s, cfg, x).value.state, Lead(s, cfg, x);
            && now.lastProactive
               == (if head == [MaintenanceOff] then None else if head == [Cleanup] && s.phase.Normal? then Some(x.now)
                   else s.lastProactive)
            && (now.phase.Cordoned? <==>
                (s.phase.Cordoned? && head != [MaintenanceOff])
                || ((s.phase.Tripping? || head == [MaintenanceOn]) && forall r :: r in x.runners ==> !r.active))
            && (now.phase.Normal? <==>
                (s.phase.Normal? && head != [MaintenanceOn]) || (s.phase.Cordoned? && head == [MaintenanceOff]))
  {
    AnyActiveIff(x.runners);
    hide Trips, AllowsReadmit, ProactiveDue, AnyActive, Stops, Dedupe, ForceStop;
  }

  lemma StepRemembers(cfg: Config, xs: seq<Sample>, h: History, x: Sample)
    requires Inv(xs, h) && Remembers(xs, h) && Plan(h.state, cfg, x).Ok?
    ensures var t := Plan(h.state, cfg, x).value;
            Remembers(xs + [x], History(t.state, h.ticks + [t.actions]))
  {
    hide Inv, Plan, EndsOn, AllSwitches, Drained, LastProactive, Trips, AllowsReadmit, ProactiveDue;
    var t := Plan(h.state, cfg, x).value;
    StepKeepsInv(cfg, xs, h, x);
    InvSays(xs, h);
    InvSays(xs + [x], History(t.state, h.ticks + [t.actions]));
    HistorySnoc(xs, h, x, t);
    LeadIsIn(h.state, cfg, x);
    TickState(h.state, cfg, x);
  }

  lemma {:induction false} RunRemembers(cfg: Config, xs: seq<Sample>)
    ensures Remembers(xs, After(cfg, xs))
  {
    hide Plan, Next, AllSwitches, EndsOn, Drained, LastProactive;
    if xs == [] {
      NothingRemembered(cfg);
    } else {
      var init, x := xs[..|xs| - 1], xs[|xs| - 1];
      assert init + [x] == xs;
      RunRemembers(cfg, init);
      NextRemembers(cfg, init, x);
    }
  }

  lemma NothingRemembered(cfg: Config)
    ensures Remembers([], After(cfg, []))
  {
    hide Plan, Trips, AllowsReadmit, ProactiveDue;
  }

  lemma NextRemembers(cfg: Config, xs: seq<Sample>, x: Sample)
    requires Remembers(xs, After(cfg, xs))
    ensures Remembers(xs + [x], After(cfg, xs + [x]))
  {
    var h := After(cfg, xs);
    NextIs(cfg, xs, x);
    hide *;
    StepRemembers(cfg, xs, h, x);
  }

  lemma NextIs(cfg: Config, xs: seq<Sample>, x: Sample)
    ensures var h := After(cfg, xs);
            && Inv(xs, h) && Plan(h.state, cfg, x) == Ok(Next(cfg, xs, x))
            && After(cfg, xs + [x]) == History(Next(cfg, xs, x).state, h.ticks + [Next(cfg, xs, x).actions])
  {
    hide Plan, Inv, After;
    StepKeepsInv(cfg, xs, After(cfg, xs), x);
  }

  /** Main result: what a tick switches and cleans, and what it tells the autoscaler. Maintenance goes
      on exactly when it is off and the disk is short; it goes off exactly when it is on, the disk
      was cleaned once in the episode and both readmit thresholds hold; inside an episode the disk is
      cleaned once, after a tick without active runners, and outside it when it fills up, at most once
      an hour. */
  lemma TickAnswers(cfg: Config, xs: seq<Sample>, x: Sample)
    ensures var h, t := After(cfg, xs), Next(cfg, xs, x);
            var on, short := EndsOn(AllSwitches(h.ticks)), x.free < cfg.tripFree || x.used >= cfg.tripUsed;
            var last := LastProactive(xs, h.ticks);
            && (MaintenanceOn in t.actions <==> !on && short)
            && (MaintenanceOff in t.actions <==>
                on && EpisodeCleanups(h.ticks) == 1 && x.free >= cfg.readmitFree && x.used <= cfg.readmitUsed)
            && (Cleanup in t.actions <==>
                if on then EpisodeCleanups(h.ticks) == 0 && Drained(xs, h.ticks)
                else !short && (x.used >= 75.0 || x.free < 80.0) && (last.None? || x.now - last.value >= 3600.0))
    ensures var t := Next(cfg, xs, x);
            var on := EndsOn(AllSwitches(After(cfg, xs + [x]).ticks));
            t.cordonActive == t.schedulingInhibited == on && t.minOnline == if on then Some(cfg.minOnline) else None
  {
    NextIs(cfg, xs, x);
    RunRemembers(cfg, xs);
    TickLeads(cfg, xs, After(cfg, xs), x);
    hide *;
    InvSays(xs + [x], After(cfg, xs + [x]));
    FlagsAre(After(cfg, xs).state, cfg, x);
  }

  /** What a tick begins with, by what the ticks before say. */
  lemma TickLeads(cfg: Config, xs: seq<Sample>, h: History, x: Sample)
    requires Inv(xs, h) && Remembers(xs, h) && Plan(h.state, cfg, x).Ok?
    ensures var t := Plan(h.state, cfg, x).value;
            var on, short := EndsOn(AllSwitches(h.ticks)), x.free < cfg.tripFree || x.used >= cfg.tripUsed;
            var last := LastProactive(xs, h.ticks);
            && (MaintenanceOn in t.actions <==> !on && short)
            && (MaintenanceOff in t.actions <==>
                on && EpisodeCleanups(h.ticks) == 1 && x.free >= cfg.readmitFree && x.used <= cfg.readmitUsed)
            && (Cleanup in t.actions <==>
                if on then EpisodeCleanups(h.ticks) == 0 && Drained(xs, h.ticks)
                else !short && (x.used >= 75.0 || x.free < 80.0) && (last.None? || x.now - last.value >= 3600.0))
  {
    InvSays(xs, h);
    LeadIsIn(h.state, cfg, x);
    hide Plan, EndsOn, AllSwitches, Drained, LastProactive, EpisodeCleanups, LastOn, Alternate;
  }

  lemma FlagsAre(s: State, cfg: Config, x: Sample)
    requires Plan(s, cfg, x).Ok?
    ensures var t := Plan(s, cfg, x).value;
            var on := !t.state.phase.Normal?;
            t.cordonActive == t.schedulingInhibited == on && t.minOnline == if on then Some(cfg.minOnline) else None
  {
    hide Stops, Dedupe, ForceStop, AnyActive, Trips, AllowsReadmit, ProactiveDue;
  }

  /** Whether a tick stops runners: when it trips, and after that until no runner is active. */
  ghost predicate Draining(cfg: Config, xs: seq<Sample>, x: Sample) {
    var h := After(cfg, xs);
    if EndsOn(AllSwitches(h.ticks)) then !Drained(xs, h.ticks) else x.free < cfg.tripFree || x.used >= cfg.tripUsed
  }

  /** Main result: a unit is stopped exactly when the host is draining and one of the unit's active
      runners is idle or out of time. */
  lemma StoppedIff(cfg: Config, xs: seq<Sample>, x: Sample, unit: string)
    ensures var t := Next(cfg, xs, x);
            var since := LastOn(xs + [x], After(cfg, xs + [x]).ticks);
            (exists a :: a in t.actions && a.Stop? && a.unit == unit)
            <==> Draining(cfg, xs, x) && since.Some?
                 && exists r :: r in x.runners && r.active && r.unit == unit
                                && (!r.busy || !cfg.finishRunningJobs || x.now - since.value >= cfg.timeout)
  {
    hide *;
    var h := After(cfg, xs);
    DrainsSince(cfg, xs, x);
    PlannedStops(h.state, cfg, x, unit);
  }

  predicate Drains(s: State, cfg: Config, x: Sample) {
    s.phase.Tripping? || (s.phase.Normal? && Trips(x.free, x.used, cfg))
  }

  function DrainsFrom(s: State, x: Sample): real {
    if s.phase.Normal? then x.now else if s.trippedAt.Some? then s.trippedAt.value else 0.0
  }

  lemma DrainsSince(cfg: Config, xs: seq<Sample>, x: Sample)
    ensures var h := After(cfg, xs);
            && Plan(h.state, cfg, x) == Ok(Next(cfg, xs, x))
            && (Draining(cfg, xs, x) <==> Drains(h.state, cfg, x))
            && (Drains(h.state, cfg, x) ==>
                  LastOn(xs + [x], After(cfg, xs + [x]).ticks) == Some(DrainsFrom(h.state, x)))
  {
    var h, t := After(cfg, xs), Next(cfg, xs, x);
    RunRemembers(cfg, xs);
    InvSays(xs, h);
    StepKeepsInv(cfg, xs, h, x);
    LastOnSnoc(xs, h.ticks, x, t.actions);
    LeadIsIn(h.state, cfg, x);
    InvTripping(xs, h);
    InvTrippedAt(xs, h);
    hide Run, Inv, EndsOn, AllSwitches, Drained, LastProactive, AllowsReadmit, ProactiveDue, LastOn, Stops, Dedupe, AnyActive;
  }

  lemma InvTrippedAt(xs: seq<Sample>, h: History)
    requires Inv(xs, h)
    ensures h.state.phase.Tripping? ==> LastOn(xs, h.ticks) == h.state.trippedAt
  {
  }

  lemma PlannedStops(s: State, cfg: Config, x: Sample, unit: string)
    requires Plan(s, cfg, x).Ok?
    ensures (exists a :: a in Plan(s, cfg, x).value.actions && a.Stop? && a.unit == unit)
            <==> Drains(s, cfg, x)
                 && exists r :: r in x.runners && r.active && r.unit == unit
                                && (!r.busy || !cfg.finishRunningJobs || x.now - DrainsFrom(s, x) >= cfg.timeout)
  {
    var force := ForceStop(cfg, DrainsFrom(s, x), x.now);
    var lead, stops := Lead(s, cfg, x), Stops(x.runners, force);
    var actions := lead + if Drains(s, cfg, x) then stops else [];
    PlanIs(s, cfg, x);
    assert forall a :: a in lead ==> !a.Stop?;
    hide Plan, Lead, Stops, Dedupe, Drains, DrainsFrom;
    DedupeStops(actions, unit);
    StopsOf(x.runners, force, unit);
    assert forall a :: a in actions && a.Stop? ==> a in stops;
    assert forall a :: a in stops ==> a in lead + stops;
  }

  lemma PlanIs(s: State, cfg: Config, x: Sample)
    requires Plan(s, cfg, x).Ok?
    ensures var at := if s.phase.Normal? then x.now else if s.trippedAt.Some? then s.trippedAt.value else 0.0;
            var drains := s.phase.Tripping? || (s.phase.Normal? && Trips(x.free, x.used, cfg));
            Plan(s, cfg, x).value.actions
            == Dedupe(Lead(s, cfg, x) + if drains then Stops(x.runners, ForceStop(cfg, at, x.now)) else [])
  {
    hide Dedupe, Stops, Trips, AllowsReadmit, ProactiveDue, AnyActive;
    assert Lead(s, cfg, x) + [] == Lead(s, cfg, x);
    assert s.phase.Tripping? ==> forall force :: [] + Stops(x.runners, force) == Stops(x.runners, force);
  }

  lemma StopsOf(runners: seq<Runner>, force: bool, unit: string)
    ensures (exists a :: a in Stops(runners, force) && a.Stop? && a.unit == unit)
            <==> exists r :: r in runners && r.active && r.unit == unit && (!r.busy || force)
  {
    forall a ensures a in Stops(runners, force)
      <==> a.Stop? && exists r :: r in runners && r.active && (!r.busy || force) && r.unit == a.unit && a.force == (force && r.busy)
    {
      StopsAre(runners, force, a);
    }
    if r :| r in runners && r.active && r.unit == unit && (!r.busy || force) {
      assert Stop(unit, force && r.busy) in Stops(runners, force);
    }
  }

  /** Deduplication leaves the same units stopped, unnamed ones too. */
  lemma {:induction false} DedupeStops(actions: seq<Action>, unit: string)
    ensures (exists a :: a in Dedupe(actions) && a.Stop? && a.unit == unit)
            <==> exists a :: a in actions && a.Stop? && a.unit == unit
  {
    if actions != [] {
      var init, last := actions[..|actions| - 1], actions[|actions| - 1];
      DedupeStops(init, unit);
      assert actions == init + [last];
      assert forall a :: a in actions <==> a in init || a == last;
      if last.Stop? && last.unit == unit && unit in StoppedUnits(init) {
        UnitsAre(init, unit);
      }
    }
  }

  lemma {:induction false} UnitsAre(actions: seq<Action>, unit: string)
    ensures unit in StoppedUnits(actions) <==> unit != "" && exists a :: a in actions && a.Stop? && a.unit == unit
  {
    if actions != [] {
      var init, last := actions[..|actions| - 1], actions[|actions| - 1];
      UnitsAre(init, unit);
      assert actions == init + [last];
      assert forall a :: a in actions <==> a in init || a == last;
    }
  }

  function WithoutUnit(actions: seq<Action>, unit: string): seq<Action> {
    if actions == [] then []
    else
      var init, last := actions[..|actions| - 1], actions[|actions| - 1];
      WithoutUnit(init, unit) + if last.Stop? && last.unit == unit then [] else [last]
  }

  /** Deduplication keeps the first action and drops later stops of its unit from the rest: of the
      stops of one unit the first is kept, and everything else in its order. */
  lemma {:induction false} DedupeFront(a: Action, rest: seq<Action>)
    ensures Dedupe([a] + rest) == [a] + Dedupe(if a.Stop? && a.unit != "" then WithoutUnit(rest, a.unit) else rest)
    decreases |rest|
  {
    var all := [a] + rest;
    if rest == [] {
      assert all == [a] && all[..0] == [];
      assert Dedupe(rest) == [];
      if a.Stop? {
        assert WithoutUnit(rest, a.unit) == rest;
      }
    } else {
      var init, last := rest[..|rest| - 1], rest[|rest| - 1];
      assert all[..|all| - 1] == [a] + init && all[|all| - 1] == last;
      DedupeFront(a, init);
      var named := a.Stop? && a.unit != "";
      var less := if named then WithoutUnit(init, a.unit) else init;
      assert init + [last] == rest;
      hide Dedupe, WithoutUnit;
      FrontDedupe(a, init, last, less);
    }
  }

  lemma DedupeLast(actions: seq<Action>, last: Action)
    ensures Dedupe(actions + [last])
            == Dedupe(actions)
               + if last.Stop? && last.unit != "" && (exists x :: x in actions && x.Stop? && x.unit == last.unit) then [] else [last]
  {
    assert (actions + [last])[..|actions|] == actions;
    if last.Stop? {
      UnitsAre(actions, last.unit);
    }
  }

  lemma FrontDedupe(a: Action, init: seq<Action>, last: Action, less: seq<Action>)
    requires less == if a.Stop? && a.unit != "" then WithoutUnit(init, a.unit) else init
    requires Dedupe([a] + init) == [a] + Dedupe(less)
    ensures Dedupe([a] + (init + [last]))
            == [a] + Dedupe(if a.Stop? && a.unit != "" then WithoutUnit(init + [last], a.unit) else init + [last])
  {
    hide Dedupe;
    DedupeLast([a] + init, last);
    DedupeLast(less, last);
    assert [a] + (init + [last]) == ([a] + init) + [last];
    assert (init + [last])[..|init|] == init && less + [] == less && Dedupe(less) + [] == Dedupe(less);
    if a.Stop? && a.unit != "" {
      forall x ensures x in less <==> x in init && !(x.Stop? && x.unit == a.unit) {
        WithoutUnitIs(init, a.unit, x);
      }
    }
    assert forall x :: x in [a] + init <==> x == a || x in init;
    assert ([a] + Dedupe(less)) + [last] == [a] + (Dedupe(less) + [last]);
  }

  lemma {:induction false} WithoutUnitIs(actions: seq<Action>, unit: string, a: Action)
    ensures a in WithoutUnit(actions, unit) <==> a in actions && !(a.Stop? && a.unit == unit)
  {
    if actions != [] {
      WithoutUnitIs(actions[..|actions| - 1], unit, a);
      assert actions == actions[..|actions| - 1] + [actions[|actions| - 1]];
    }
  }
}
