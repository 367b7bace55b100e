/** The sliding-window dispatch quota (backend/dispatch_quota.py): per principal, a list of
    the dispatch times still inside the window, trimmed from the left on every access. */
module Quota {
  import opened Common
  import Text

  type Stamps = map<string, seq<real>>

  /** IndexError is Python's, raised for a cap below one. */
  datatype Check = Allowed | Anonymous | RateLimited(retryAfter: int) | IndexError

  datatype Config = Config(window: real, cap: int)

  predicate IsAnonymous(principal: Option<string>) {
    principal.None? ||
    Text.Lower(Text.Strip(principal.value)) in {"", "anonymous", "none", "null", "unknown", "-"}
  }

  function Held(m: Stamps, p: string): seq<real> {
    if p in m then m[p] else []
  }

  /** The times left after dropping those before the cutoff from the left. */
  function Trimmed(ts: seq<real>, cutoff: real): seq<real> {
    if ts == [] || ts[0] >= cutoff then ts else Trimmed(ts[1..], cutoff)
  }

  function Pruned(m: Stamps, p: string, cutoff: real): Stamps {
    var kept := Trimmed(Held(m, p), cutoff);
    if Held(m, p) == [] then m else if kept == [] then m - {p} else m[p := kept]
  }

  /** Python's int() on a float. */
  function Truncate(x: real): int {
    if x >= 0.0 then x.Floor else -((-x).Floor)
  }

  function CheckAndRecord(cfg: Config, m: Stamps, principal: Option<string>, now: real): (Stamps, Check) {
    if IsAnonymous(principal) then (m, Anonymous)
    else
      var p := principal.value;
      var m' := Pruned(m, p, now - cfg.window);
      var ts := Held(m', p);
      if |ts| < cfg.cap then (m'[p := ts + [now]], Allowed)
      else if ts == [] then (m', IndexError)
      else (m', RateLimited(Max(1, Truncate(cfg.window - (now - ts[0])) + 1)))
  }

  /** Without the recorded dispatches of one principal, or of all. */
  function Forget(m: Stamps, principal: Option<string>): Stamps {
    if principal.None? then map[] else m - {principal.value}
  }

  class DispatchQuota {
    const cfg: Config
    var timestamps: Stamps

    constructor (cfg: Config)
      ensures this.cfg == cfg && timestamps == map[]
    {
      this.cfg := cfg;
      timestamps := map[];
    }

    method PruneLocked(p: string, cutoff: real) returns (kept: seq<real>)
      modifies this
      ensures timestamps == Pruned(old(timestamps), p, cutoff)
      ensures kept == Held(timestamps, p)
    {
      var ts := Held(timestamps, p);
      if ts == [] {
        return [];
      }
      var firstKeep := 0;
      assert ts[0..] == ts;
      while firstKeep < |ts| && ts[firstKeep] < cutoff
        invariant firstKeep <= |ts| && Trimmed(ts[firstKeep..], cutoff) == Trimmed(ts, cutoff)
      {
        assert ts[firstKeep..][1..] == ts[firstKeep + 1..];
        firstKeep := firstKeep + 1;
      }
      if firstKeep == |ts| {
        timestamps := timestamps - {p};
        return [];
      }
      kept := ts[firstKeep..];
      timestamps := timestamps[p := kept];
    }

    method CheckAndRecordDispatch(principal: Option<string>, now: real) returns (check: Check)
      modifies this
      ensures (timestamps, check) == CheckAndRecord(cfg, old(timestamps), principal, now)
    {
      if IsAnonymous(principal) {
        return Anonymous;
      }
      var p := principal.value;
      var ts := PruneLocked(p, now - cfg.window);
      if |ts| >= cfg.cap {
        if ts == [] {
          return IndexError;
        }
        var oldest := ts[0];
        return RateLimited(Max(1, Truncate(cfg.window - (now - oldest)) + 1));
      }
      timestamps := timestamps[p := ts + [now]];
      return Allowed;
    }

    method CurrentCount(p: string, now: real) returns (n: nat)
      modifies this
      ensures timestamps == Pruned(old(timestamps), p, now - cfg.window)
      ensures n == |Held(timestamps, p)|
    {
      var ts := PruneLocked(p, now - cfg.window);
      return |ts|;
    }

    method Reset(principal: Option<string>)
      modifies this
      ensures timestamps == Forget(old(timestamps), principal)
    {
      if principal.None? {
        timestamps := map[];
      } else {
        timestamps := timestamps - {principal.value};
      }
    }
  }

  /** After a reset the next check of a principal that is forgotten passes exactly when the cap is at
      least one, and every other principal gets the answer it would have got. */
  lemma ResetStartsAfresh(cfg: Config, m: Stamps, principal: Option<string>, q: string, now: real)
    requires !IsAnonymous(Some(q))
    ensures var answer := CheckAndRecord(cfg, Forget(m, principal), Some(q), now).1;
            if principal.None? || principal.value == q then answer == Allowed <==> cfg.cap >= 1
            else answer == CheckAndRecord(cfg, m, Some(q), now).1
  {
    hide IsAnonymous;
    assert Held(Forget(m, principal), q) == if principal.None? || principal.value == q then [] else Held(m, q);
  }

  // ---------------------------------------------------------------- trimming is filtering

  predicate Sorted(ts: seq<real>) {
    forall i, j | 0 <= i < j < |ts| :: ts[i] <= ts[j]
  }

  /** The times from some moment on. */
  function Since(ts: seq<real>, from: real): seq<real> {
    if ts == [] then []
    else Since(ts[..|ts| - 1], from) + if ts[|ts| - 1] >= from then [ts[|ts| - 1]] else []
  }

  lemma {:induction false} SinceAll(ts: seq<real>, from: real)
    requires forall i | 0 <= i < |ts| :: ts[i] >= from
    ensures Since(ts, from) == ts
  {
    if ts != [] {
      SinceAll(ts[..|ts| - 1], from);
    }
  }

  lemma {:induction false} SinceCons(t: real, ts: seq<real>, from: real)
    ensures Since([t] + ts, from) == (if t >= from then [t] else []) + Since(ts, from)
  {
    var all := [t] + ts;
    if ts == [] {
      assert all[..|all| - 1] == [];
    } else {
      assert all[..|all| - 1] == [t] + ts[..|ts| - 1];
      SinceCons(t, ts[..|ts| - 1], from);
    }
  }

  /** On the sorted lists the quota keeps, trimming from the left is the same as filtering. */
  lemma {:induction false} TrimIsFilter(ts: seq<real>, cutoff: real)
    requires Sorted(ts)
    ensures Trimmed(ts, cutoff) == Since(ts, cutoff)
  {
    if ts != [] {
      if ts[0] >= cutoff {
        SinceAll(ts, cutoff);
      } else {
        assert [ts[0]] + ts[1..] == ts;
        SinceCons(ts[0], ts[1..], cutoff);
        TrimIsFilter(ts[1..], cutoff);
      }
    }
  }

  predicate UpTo(ts: seq<real>, end: real) {
    forall i | 0 <= i < |ts| :: ts[i] <= end
  }

  lemma {:induction false} SinceFacts(ts: seq<real>, from: real, end: real)
    requires Sorted(ts) && UpTo(ts, end)
    ensures Sorted(Since(ts, from)) && UpTo(Since(ts, from), end)
    ensures forall i | 0 <= i < |Since(ts, from)| :: Since(ts, from)[i] >= from
  {
    if ts != [] {
      SinceFacts(ts[..|ts| - 1], from, ts[|ts| - 1]);
    }
  }

  lemma {:induction false} SinceTwice(ts: seq<real>, from: real, later: real)
    requires from <= later
    ensures Since(Since(ts, from), later) == Since(ts, later)
  {
    if ts != [] {
      var init, last := ts[..|ts| - 1], ts[|ts| - 1];
      SinceTwice(init, from, later);
      if last >= from {
        SinceSnoc(Since(init, from), last, later);
      } else {
        assert Since(init, from) + [] == Since(init, from) && Since(init, later) + [] == Since(init, later);
      }
    }
  }

  lemma SinceSnoc(ts: seq<real>, t: real, from: real)
    ensures Since(ts + [t], from) == Since(ts, from) + if t >= from then [t] else []
  {
    assert (ts + [t])[..|ts|] == ts;
  }

  // ---------------------------------------------------------------- runs

  datatype Event = Dispatch(principal: Option<string>, now: real) | Count(who: string, now: real)

  type Run = seq<Event>

  predicate Ordered(h: Run) {
    forall i, j | 0 <= i < j < |h| :: h[i].now <= h[j].now
  }

  function Step(cfg: Config, m: Stamps, e: Event): Stamps {
    match e
    case Dispatch(principal, now) => CheckAndRecord(cfg, m, principal, now).0
    case Count(who, now) => Pruned(m, who, now - cfg.window)
  }

  function After(cfg: Config, h: Run): Stamps {
    if h == [] then map[] else Step(cfg, After(cfg, h[..|h| - 1]), h[|h| - 1])
  }

  /** What a dispatch by a principal after the run is answered. */
  function Answer(cfg: Config, h: Run, p: string, now: real): Check {
    CheckAndRecord(cfg, After(cfg, h), Some(p), now).1
  }

  /** The times at which the run allowed a principal to dispatch. */
  function Granted(cfg: Config, h: Run, p: string): seq<real> {
    if h == [] then []
    else
      var init, e := h[..|h| - 1], h[|h| - 1];
      Granted(cfg, init, p)
      + if e.Dispatch? && e.principal == Some(p) && Answer(cfg, init, p, e.now).Allowed? then [e.now] else []
  }

  /** What a step does to the list of a principal. */
  lemma StepHeld(cfg: Config, m: Stamps, e: Event, p: string)
    ensures var kept := Trimmed(Held(m, p), e.now - cfg.window);
            var ok := e.Dispatch? && e.principal == Some(p) && CheckAndRecord(cfg, m, Some(p), e.now).1.Allowed?;
            if ok then Held(Step(cfg, m, e), p) == kept + [e.now]
            else Held(Step(cfg, m, e), p) == kept || Held(Step(cfg, m, e), p) == Held(m, p)
  {
    assert IsAnonymous(None);
    hide Trimmed, Truncate, IsAnonymous;
    var cutoff := e.now - cfg.window;
    var who := if e.Count? then Some(e.who) else e.principal;
    TrimmedNothing(cutoff);
    if who == Some(p) {
      assert Held(Pruned(m, p, cutoff), p) == Trimmed(Held(m, p), cutoff);
    } else if who.Some? {
      assert Held(Pruned(m, who.value, cutoff), p) == Held(m, p);
    }
  }

  lemma TrimmedNothing(cutoff: real)
    ensures Trimmed([], cutoff) == []
  {
  }

  /** The list kept for a principal holds, from any moment still inside the window on, exactly
      the granted dispatches. */
  lemma {:induction false} KeptAreGranted(cfg: Config, h: Run, p: string, from: real)
    requires Ordered(h) && (h != [] ==> from >= h[|h| - 1].now - cfg.window)
    ensures Sorted(Held(After(cfg, h), p)) && Sorted(Granted(cfg, h, p))
    ensures h != [] ==> UpTo(Held(After(cfg, h), p), h[|h| - 1].now) && UpTo(Granted(cfg, h, p), h[|h| - 1].now)
    ensures h == [] ==> Held(After(cfg, h), p) == [] && Granted(cfg, h, p) == []
    ensures Since(Held(After(cfg, h), p), from) == Since(Granted(cfg, h, p), from)
  {
    if h != [] {
      var init, e := h[..|h| - 1], h[|h| - 1];
      KeptAreGranted(cfg, init, p, from);
      assert init != [] ==> init[|init| - 1] == h[|h| - 2];
      var m := After(cfg, init);
      hide Held, Trimmed, Since, Pruned, CheckAndRecord;
      StepKeeps(cfg, m, e, p, Granted(cfg, init, p), from);
    }
  }

  lemma StepKeeps(cfg: Config, m: Stamps, e: Event, p: string, granted: seq<real>, from: real)
    requires from >= e.now - cfg.window && Since(Held(m, p), from) == Since(granted, from)
    requires Sorted(Held(m, p)) && Sorted(granted) && UpTo(Held(m, p), e.now) && UpTo(granted, e.now)
    ensures var kept := Held(Step(cfg, m, e), p);
            var ok := e.Dispatch? && e.principal == Some(p) && CheckAndRecord(cfg, m, Some(p), e.now).1.Allowed?;
            var now := granted + if ok then [e.now] else [];
            && Sorted(kept) && Sorted(now) && UpTo(kept, e.now) && UpTo(now, e.now)
            && Since(kept, from) == Since(now, from)
  {
    hide *;
    var was := Held(m, p);
    var cutoff := e.now - cfg.window;
    StepHeld(cfg, m, e, p);
    var kept := Trimmed(was, cutoff);
    TrimIsFilter(was, cutoff);
    SinceFacts(was, cutoff, e.now);
    SinceTwice(was, cutoff, from);
    SinceSnoc(kept, e.now, from);
    SinceSnoc(granted, e.now, from);
    SortedSnoc(kept, e.now);
    SortedSnoc(granted, e.now);
    assert granted + [] == granted;
  }

  lemma SortedSnoc(ts: seq<real>, t: real)
    requires Sorted(ts) && UpTo(ts, t)
    ensures Sorted(ts + [t]) && UpTo(ts + [t], t)
  {
  }

  lemma OrderedPrefix(h: Run, rest: Run)
    requires Ordered(h + rest)
    ensures Ordered(h)
    ensures h != [] && rest != [] ==> h[|h| - 1].now <= rest[|rest| - 1].now
  {
    var all := h + rest;
    assert forall i | 0 <= i < |h| :: h[i] == all[i];
    assert rest != [] ==> all[|all| - 1] == rest[|rest| - 1];
  }

  /** The answer to a dispatch in terms of the list its principal is left with. */
  lemma AnswerIs(cfg: Config, m: Stamps, p: string, now: real)
    requires !IsAnonymous(Some(p))
    ensures var kept := Trimmed(Held(m, p), now - cfg.window);
            CheckAndRecord(cfg, m, Some(p), now).1
            == if |kept| < cfg.cap then Allowed
               else if kept == [] then IndexError
               else RateLimited(Max(1, Truncate(cfg.window - (now - kept[0])) + 1))
  {
    hide Trimmed, Truncate, IsAnonymous;
    var cutoff := now - cfg.window;
    TrimmedNothing(cutoff);
    assert Held(Pruned(m, p, cutoff), p) == Trimmed(Held(m, p), cutoff);
  }

  /** Main result: a dispatch is allowed exactly when fewer than the cap were granted in the
      closed window that ends now; otherwise the wait is counted from the oldest of them. A cap
      below one has no oldest to count from. */
  lemma AllowedIffWindowHasRoom(cfg: Config, h: Run, p: string, now: real)
    requires Ordered(h + [Dispatch(Some(p), now)]) && !IsAnonymous(Some(p))
    ensures var open := Since(Granted(cfg, h, p), now - cfg.window);
            Answer(cfg, h, p, now)
            == if |open| < cfg.cap then Allowed
               else if open == [] then IndexError
               else RateLimited(Max(1, Truncate(cfg.window - (now - open[0])) + 1))
  {
    hide After, Granted, Trimmed, Since, Held, IsAnonymous, Truncate, CheckAndRecord, Ordered, Sorted, UpTo;
    OrderedPrefix(h, [Dispatch(Some(p), now)]);
    KeptAreGranted(cfg, h, p, now - cfg.window);
    var m := After(cfg, h);
    AnswerIs(cfg, m, p, now);
    TrimIsFilter(Held(m, p), now - cfg.window);
  }

  lemma AnsweredIsNamed(cfg: Config, h: Run, p: string, now: real)
    ensures !Answer(cfg, h, p, now).Anonymous? ==> !IsAnonymous(Some(p))
  {
    hide IsAnonymous, After;
  }

  /** Main result: the check raises instead of answering if and only if the cap is below one, and
      then it does so for every named principal, always. */
  lemma IndexErrorIff(cfg: Config, h: Run, p: string, now: real)
    requires Ordered(h + [Dispatch(Some(p), now)]) && !IsAnonymous(Some(p))
    ensures Answer(cfg, h, p, now).IndexError? <==> cfg.cap < 1
  {
    AllowedIffWindowHasRoom(cfg, h, p, now);
    if cfg.cap < 1 {
      NothingIsGranted(cfg, h, p);
      assert Since([], now - cfg.window) == [];
    }
    hide Answer, Granted, After, Truncate, IsAnonymous, Ordered;
  }

  lemma {:induction false} NothingIsGranted(cfg: Config, h: Run, p: string)
    requires cfg.cap < 1
    ensures Granted(cfg, h, p) == []
  {
    hide IsAnonymous, Pruned, Truncate, After;
    if h != [] {
      NothingIsGranted(cfg, h[..|h| - 1], p);
    }
  }

  /** The granted dispatches in a closed interval. */
  function Within(ts: seq<real>, from: real, to: real): nat {
    if ts == [] then 0
    else Within(ts[..|ts| - 1], from, to) + if from <= ts[|ts| - 1] <= to then 1 else 0
  }

  lemma {:induction false} WithinSince(ts: seq<real>, from: real, to: real, cutoff: real)
    requires cutoff <= from
    ensures Within(ts, from, to) <= |Since(ts, cutoff)|
  {
    if ts != [] {
      WithinSince(ts[..|ts| - 1], from, to, cutoff);
    }
  }

  /** Main result: no closed interval as long as the window holds more granted dispatches of a
      principal than the cap. */
  lemma {:induction false} QuotaHoldsInEveryWindow(cfg: Config, h: Run, p: string, from: real)
    requires Ordered(h) && cfg.cap >= 0
    ensures Within(Granted(cfg, h, p), from, from + cfg.window) <= cfg.cap
  {
    hide IsAnonymous, Answer, After, Since, Truncate, Max;
    if h != [] {
      var init, e := h[..|h| - 1], h[|h| - 1];
      QuotaHoldsInEveryWindow(cfg, init, p, from);
      var was := Granted(cfg, init, p);
      if e.Dispatch? && e.principal == Some(p) && Answer(cfg, init, p, e.now).Allowed? {
        assert init + [Dispatch(Some(p), e.now)] == h;
        AnsweredIsNamed(cfg, init, p, e.now);
        AllowedIffWindowHasRoom(cfg, init, p, e.now);
        assert (was + [e.now])[..|was|] == was;
        if from <= e.now <= from + cfg.window {
          WithinSince(was, from, from + cfg.window, e.now - cfg.window);
        }
      } else {
        assert was + [] == was;
      }
    }
  }

  /** Nothing is granted to a principal by events that are not its dispatches. */
  lemma {:induction false} OthersGrantNothing(cfg: Config, h: Run, mid: Run, p: string)
    requires forall i | 0 <= i < |mid| :: !(mid[i].Dispatch? && mid[i].principal == Some(p))
    ensures Granted(cfg, h + mid, p) == Granted(cfg, h, p)
  {
    if mid == [] {
      assert h + mid == h;
    } else {
      var init := mid[..|mid| - 1];
      assert (h + mid)[..|h + mid| - 1] == h + init;
      OthersGrantNothing(cfg, h, init, p);
    }
  }

  lemma {:induction false} WithinIsSince(ts: seq<real>, from: real, to: real)
    requires UpTo(ts, to)
    ensures Within(ts, from, to) == |Since(ts, from)|
  {
    if ts != [] {
      WithinIsSince(ts[..|ts| - 1], from, to);
    }
  }

  /** Whole seconds after which the oldest time has left the window. */
  function WaitFrom(window: real, now: real, oldest: real): int {
    (window - (now - oldest)).Floor + 1
  }

  /** When a dispatch is refused, the window is exactly full, and the wait is counted from its
      oldest grant. */
  lemma RefusedWindowIsFull(cfg: Config, h: Run, p: string, now: real)
    requires Ordered(h + [Dispatch(Some(p), now)]) && cfg.cap >= 1 && Answer(cfg, h, p, now).RateLimited?
    ensures var open := Since(Granted(cfg, h, p), now - cfg.window);
            && |open| == cfg.cap && Sorted(open) && open[0] >= now - cfg.window
            && Answer(cfg, h, p, now).retryAfter == WaitFrom(cfg.window, now, open[0])
  {
    AnsweredIsNamed(cfg, h, p, now);
    hide *;
    AllowedIffWindowHasRoom(cfg, h, p, now);
    OrderedPrefix(h, [Dispatch(Some(p), now)]);
    var granted := Granted(cfg, h, p);
    KeptAreGranted(cfg, h, p, now - cfg.window);
    QuotaHoldsInEveryWindow(cfg, h, p, now - cfg.window);
    assert now - cfg.window + cfg.window == now;
    NothingYet(h, granted, now);
    SinceFacts(granted, now - cfg.window, now);
    WithinIsSince(granted, now - cfg.window, now);
    WaitIs(cfg.window, now, Since(granted, now - cfg.window)[0]);
  }

  lemma NothingYet(h: Run, granted: seq<real>, now: real)
    requires if h == [] then granted == [] else UpTo(granted, h[|h| - 1].now) && h[|h| - 1].now <= now
    ensures UpTo(granted, now)
  {
  }

  lemma WaitIs(window: real, now: real, oldest: real)
    requires oldest >= now - window
    ensures Max(1, Truncate(window - (now - oldest)) + 1) == WaitFrom(window, now, oldest)
  {
  }

  /** How many of the open times are still inside a later window. */
  lemma OpenLater(open: seq<real>, window: real, now: real, later: real)
    requires open != [] && Sorted(open) && open[0] >= now - window
    ensures var wait := WaitFrom(window, now, open[0]);
            && wait >= 1
            && (later >= now + wait as real ==> |Since(open, later - window)| < |open|)
            && (later <= now + (wait - 1) as real ==> Since(open, later - window) == open)
  {
    var cutoff := later - window;
    assert [open[0]] + open[1..] == open;
    SinceCons(open[0], open[1..], cutoff);
    SinceShortens(open[1..], cutoff);
    if open[0] >= cutoff {
      SinceAll(open, cutoff);
    }
  }

  lemma {:induction false} SinceShortens(ts: seq<real>, from: real)
    ensures |Since(ts, from)| <= |ts|
  {
    if ts != [] {
      SinceShortens(ts[..|ts| - 1], from);
    }
  }

  /** Main result: with no dispatch of the principal in between, a refused principal is still
      refused up to one second before the advised wait is over and allowed once it is over. */
  lemma RetryAfterIsRight(cfg: Config, h: Run, p: string, now: real, mid: Run, later: real)
    requires Ordered(h + [Dispatch(Some(p), now)] + mid + [Dispatch(Some(p), later)])
    requires cfg.cap >= 1 && Answer(cfg, h, p, now).RateLimited?
    requires forall i | 0 <= i < |mid| :: !(mid[i].Dispatch? && mid[i].principal == Some(p))
    ensures var after := h + [Dispatch(Some(p), now)] + mid;
            var wait := Answer(cfg, h, p, now).retryAfter;
            && wait >= 1
            && (later >= now + wait as real ==> Answer(cfg, after, p, later).Allowed?)
            && (later <= now + (wait - 1) as real ==> Answer(cfg, after, p, later).RateLimited?)
  {
    hide *;
    var after := h + [Dispatch(Some(p), now)] + mid;
    var open := Since(Granted(cfg, h, p), now - cfg.window);
    AnsweredIsNamed(cfg, h, p, now);
    LaterIsOrdered(h, mid, p, now, later);
    RefusedWindowIsFull(cfg, h, p, now);
    OpenStaysOpen(cfg, h, p, now, mid, later);
    AnswerLater(cfg, after, p, now, later, open);
  }

  /** What a dispatch is answered when the times of the full window are all that may count. */
  lemma AnswerLater(cfg: Config, after: Run, p: string, now: real, later: real, open: seq<real>)
    requires Ordered(after + [Dispatch(Some(p), later)]) && !IsAnonymous(Some(p)) && cfg.cap >= 1
    requires |open| == cfg.cap && Sorted(open) && open[0] >= now - cfg.window
    requires Since(Granted(cfg, after, p), later - cfg.window) == Since(open, later - cfg.window)
    ensures var wait := WaitFrom(cfg.window, now, open[0]);
            && wait >= 1
            && (later >= now + wait as real ==> Answer(cfg, after, p, later).Allowed?)
            && (later <= now + (wait - 1) as real ==> Answer(cfg, after, p, later).RateLimited?)
  {
    hide *;
    OpenLater(open, cfg.window, now, later);
    AnswerBySize(cfg, after, p, later, Since(open, later - cfg.window));
  }

  lemma AnswerBySize(cfg: Config, h: Run, p: string, now: real, open: seq<real>)
    requires Ordered(h + [Dispatch(Some(p), now)]) && !IsAnonymous(Some(p)) && cfg.cap >= 1
    requires open == Since(Granted(cfg, h, p), now - cfg.window)
    ensures if |open| < cfg.cap then Answer(cfg, h, p, now).Allowed? else Answer(cfg, h, p, now).RateLimited?
  {
    hide *;
    AllowedIffWindowHasRoom(cfg, h, p, now);
  }

  lemma OpenStaysOpen(cfg: Config, h: Run, p: string, now: real, mid: Run, later: real)
    requires now <= later && !Answer(cfg, h, p, now).Allowed?
    requires forall i | 0 <= i < |mid| :: !(mid[i].Dispatch? && mid[i].principal == Some(p))
    ensures Since(Granted(cfg, h + [Dispatch(Some(p), now)] + mid, p), later - cfg.window)
            == Since(Since(Granted(cfg, h, p), now - cfg.window), later - cfg.window)
  {
    hide *;
    RefusalGrantsNothing(cfg, h, p, now);
    OthersGrantNothing(cfg, h + [Dispatch(Some(p), now)], mid, p);
    SinceTwice(Granted(cfg, h, p), now - cfg.window, later - cfg.window);
  }

  lemma LaterIsOrdered(h: Run, mid: Run, p: string, now: real, later: real)
    requires Ordered(h + [Dispatch(Some(p), now)] + mid + [Dispatch(Some(p), later)])
    ensures Ordered(h + [Dispatch(Some(p), now)]) && now <= later
  {
    var before, rest := h + [Dispatch(Some(p), now)], mid + [Dispatch(Some(p), later)];
    assert h + [Dispatch(Some(p), now)] + mid + [Dispatch(Some(p), later)] == before + rest;
    OrderedPrefix(before, rest);
  }

  lemma RefusalGrantsNothing(cfg: Config, h: Run, p: string, now: real)
    requires !Answer(cfg, h, p, now).Allowed?
    ensures Granted(cfg, h + [Dispatch(Some(p), now)], p) == Granted(cfg, h, p)
  {
    assert (h + [Dispatch(Some(p), now)])[..|h|] == h;
  }
}
