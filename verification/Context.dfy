/** The shared running context under a token budget (backend/activity_context.py): its JSON text,
    the token estimate, and what is packed, dropped and reported. */
module Context {
  import opened Common
  import opened Text
  import opened TierPacking

  // ---------------------------------------------------------------- serialization

  function Join(items: seq<string>): string {
    if items == [] then ""
    else if |items| == 1 then items[0]
    else Join(items[..|items| - 1]) + "," + items[|items| - 1]
  }

  function List(items: seq<string>): string {
    "[" + Join(items) + "]"
  }

  const TIER_COUNT := 4

  /** The JSON texts around the parts of a context that vary: the labels before each part, in
      the order of the sorted keys, and the quoted tier names, most urgent first. */
  datatype Labels = Labels(
    budget: string, claims: string, conflicts: string, droppedClaims: string, droppedConflicts: string,
    droppedLive: string, droppedRecent: string, generatedAt: string, live: string, recent: string, repo: string,
    sources: string, truncated: string, tiers: string, used: string, end: string, names: seq<string>)

  /** A key of a JSON object. */
  function Key(name: string): string {
    "\"" + name + "\":"
  }

  const JSON_LABELS := Labels(
    "{" + Key("budget_tokens"), "," + Key("claims"), "," + Key("conflicts"),
    "," + Key("dropped_counts") + "{" + Key("claims"), "," + Key("conflicts"), "," + Key("live_sessions"),
    "," + Key("recent_events"), "}" + "," + Key("generated_at"), "," + Key("live_sessions"), "," + Key("recent_events"),
    "," + Key("repo"), "," + Key("sources"), "," + Key("truncated"), "," + Key("truncated_tiers"), "," + Key("used_tokens"),
    "}", ["\"conflicts\"", "\"claims\"", "\"live_sessions\"", "\"recent_events\""])

  /** The parts that do not depend on the packing, as JSON texts. */
  datatype Frame = Frame(labels: Labels, generatedAt: string, repo: string, sources: string)

  datatype Context = Context(
    frame: Frame, budget: nat, used: nat, truncated: bool, tiers: seq<string>, drops: seq<nat>, packed: Candidates)

  predicate WellFormed(c: Context) {
    |c.drops| == TIER_COUNT && |c.packed| == TIER_COUNT
  }

  function Boolean(b: bool): string {
    if b then "true" else "false"
  }

  function RenderHead(f: Frame, budget: nat, packed: Candidates): string
    requires |packed| == TIER_COUNT
  {
    f.labels.budget + Decimal(budget) + f.labels.claims + List(packed[1]) + f.labels.conflicts + List(packed[0])
  }

  function RenderBody(f: Frame, packed: Candidates): string
    requires |packed| == TIER_COUNT
  {
    f.labels.generatedAt + f.generatedAt + f.labels.live + List(packed[2]) + f.labels.recent + List(packed[3])
    + f.labels.repo + f.repo + f.labels.sources + f.sources
  }

  function RenderDrops(labels: Labels, drops: seq<nat>): string
    requires |drops| == TIER_COUNT
  {
    labels.droppedClaims + Decimal(drops[1]) + labels.droppedConflicts + Decimal(drops[0])
    + labels.droppedLive + Decimal(drops[2]) + labels.droppedRecent + Decimal(drops[3])
  }

  function RenderMarks(labels: Labels, truncated: bool, tiers: seq<string>): string {
    labels.truncated + Boolean(truncated) + labels.tiers + List(tiers)
  }

  /** The JSON text of a context. */
  function Render(c: Context): string
    requires WellFormed(c)
  {
    RenderHead(c.frame, c.budget, c.packed)
    + RenderDrops(c.frame.labels, c.drops)
    + RenderBody(c.frame, c.packed)
    + RenderMarks(c.frame.labels, c.truncated, c.tiers)
    + c.frame.labels.used + Decimal(c.used) + c.frame.labels.end
  }

  /** One token for each four characters, rounded up. */
  function Estimate(length: nat): nat {
    (length + 3) / 4
  }

  // ---------------------------------------------------------------- packing

  function TierTokens(items: seq<string>): nat {
    if items == [] then 0 else TierTokens(items[..|items| - 1]) + Estimate(|items[|items| - 1]|)
  }

  /** The sum of the estimates of the packed items. */
  function SumItems(packed: Candidates): nat {
    if packed == [] then 0 else SumItems(packed[..|packed| - 1]) + TierTokens(packed[|packed| - 1])
  }

  function Sizes(cands: Candidates): seq<nat> {
    seq(|cands|, t requires 0 <= t < |cands| => |cands[t]|)
  }

  /** One packing problem. */
  datatype Problem = Problem(frame: Frame, cands: Candidates, budget: nat, scanHit: bool)

  predicate Posed(p: Problem) {
    |p.cands| == TIER_COUNT && |p.frame.labels.names| == TIER_COUNT
  }

  /** The estimate of a context with these items and the longest envelope it can have. */
  function Worst(p: Problem, packed: Candidates): nat
    requires Posed(p) && |packed| == TIER_COUNT
  {
    Estimate(|Render(Context(p.frame, p.budget, p.budget, true, p.frame.labels.names, Sizes(p.cands), packed))|)
  }

  predicate TracksEnvelope(p: Problem)
    requires Posed(p)
  {
    p.budget >= Worst(p, Cut(p.cands, 0))
  }

  predicate WithinBudget(p: Problem, packed: Candidates)
    requires Posed(p)
  {
    |packed| == TIER_COUNT && (if TracksEnvelope(p) then Worst(p, packed) else SumItems(packed)) <= p.budget
  }

  function Fitting(p: Problem): Fits
    requires Posed(p)
  {
    packed => WithinBudget(p, packed)
  }

  function Packed(p: Problem): nat
    requires Posed(p)
  {
    Count(p.cands, Fitting(p), 0)
  }

  /** The names of the tiers of which something was dropped, and of the last when the scan hit
      its limit. */
  function Named(names: seq<string>, drops: seq<nat>, scanHit: bool): seq<string>
    requires |names| == |drops| <= TIER_COUNT
  {
    if names == [] then []
    else
      var t := |names| - 1;
      Named(names[..t], drops[..t], scanHit) + if drops[t] > 0 || (scanHit && |names| == TIER_COUNT) then [names[t]] else []
  }

  /** The context with the first n candidates, before its tokens are counted. */
  function Envelope(p: Problem, n: nat): (c: Context)
    requires Posed(p)
    ensures WellFormed(c)
  {
    var drops := Drops(p.cands, n);
    var tiers := Named(p.frame.labels.names, drops, p.scanHit);
    Context(p.frame, p.budget, p.budget, tiers != [], tiers, drops, Cut(p.cands, n))
  }

  function Used(p: Problem, n: nat): nat
    requires Posed(p)
  {
    if TracksEnvelope(p) then Min(p.budget, Estimate(|Render(Envelope(p, n))|)) else SumItems(Cut(p.cands, n))
  }

  function Build(p: Problem): (c: Context)
    requires Posed(p)
    ensures WellFormed(c)
  {
    Envelope(p, Packed(p)).(used := Used(p, Packed(p)))
  }

  const MIN_BUDGET := 1
  const MAX_BUDGET := 4000

  datatype Error = ValueError

  function JsonFrame(generatedAt: string, repo: string, sources: string): (f: Frame)
    ensures |f.labels.names| == TIER_COUNT
  {
    Frame(JSON_LABELS, generatedAt, repo, sources)
  }

  /** `generatedAt`, `repo` and `sources` are JSON texts. */
  method BuildActivityContext(
    generatedAt: string, repo: string, sources: string, cands: Candidates, budget: int, scanHit: bool)
    returns (r: Result<Context, Error>)
    requires |cands| == TIER_COUNT
    ensures var frame := JsonFrame(generatedAt, repo, sources);
            r == if MIN_BUDGET <= budget <= MAX_BUDGET then Ok(Build(Problem(frame, cands, budget, scanHit))) else Err(ValueError)
  {
    hide Count, Cut, Part, Total, Offset, Render, TracksEnvelope, SumItems, WithinBudget, JsonFrame;
    if !(MIN_BUDGET <= budget <= MAX_BUDGET) {
      return Err(ValueError);
    }
    var frame := JsonFrame(generatedAt, repo, sources);
    var p := Problem(frame, cands, budget, scanHit);
    var packed, drops := PackTiers(cands, Fitting(p));
    var names, tiers := frame.labels.names, [];
    for t := 0 to TIER_COUNT
      invariant tiers == Named(names[..t], drops[..t], false)
    {
      assert names[..t + 1][..t] == names[..t] && drops[..t + 1][..t] == drops[..t];
      if drops[t] > 0 {
        tiers := tiers + [names[t]];
      }
    }
    assert names[..TIER_COUNT] == names && drops[..TIER_COUNT] == drops;
    NamedWithScan(names, drops, scanHit);
    var isTrunc := tiers != [] || scanHit;
    if scanHit && drops[TIER_COUNT - 1] == 0 {
      tiers := tiers + [names[TIER_COUNT - 1]];
    }
    hide Named;
    var c := Context(frame, budget, budget, isTrunc, tiers, drops, packed);
    var used := if TracksEnvelope(p) then Min(budget, Estimate(|Render(c)|)) else SumItems(packed);
    return Ok(c.(used := used));
  }

  /** Naming the last tier after a scan that hit its limit is naming it at its turn. */
  lemma NamedWithScan(names: seq<string>, drops: seq<nat>, scanHit: bool)
    requires |names| == |drops| == TIER_COUNT
    ensures Named(names, drops, scanHit)
            == if scanHit && drops[3] == 0 then Named(names, drops, false) + [names[3]] else Named(names, drops, false)
    ensures scanHit ==> Named(names, drops, scanHit) != []
  {
    NamedBefore(names[..3], drops[..3], scanHit);
    var front := Named(names[..3], drops[..3], false);
    assert front + [] == front;
  }

  lemma {:induction false} NamedBefore(names: seq<string>, drops: seq<nat>, scanHit: bool)
    requires |names| == |drops| < TIER_COUNT
    ensures Named(names, drops, scanHit) == Named(names, drops, false)
  {
    if names != [] {
      NamedBefore(names[..|names| - 1], drops[..|names| - 1], scanHit);
    }
  }

  // ---------------------------------------------------------------- lengths

  lemma {:induction false} DigitsGrow(a: nat, b: nat)
    requires a <= b
    ensures |Decimal(a)| <= |Decimal(b)|
    decreases b
  {
    if b >= 10 {
      if a >= 10 {
        DigitsGrow(a / 10, b / 10);
      }
    }
  }

  lemma {:induction false} JoinFewer(names: seq<string>, drops: seq<nat>, scanHit: bool)
    requires |names| == |drops| <= TIER_COUNT
    ensures |Join(Named(names, drops, scanHit))| <= |Join(names)|
    ensures Named(names, drops, scanHit) != [] ==> names != []
  {
    if names != [] {
      var t := |names| - 1;
      JoinFewer(names[..t], drops[..t], scanHit);
      var front := Named(names[..t], drops[..t], scanHit);
      JoinSnoc(front, names[t]);
      JoinSnoc(names[..t], names[t]);
      assert names[..t] + [names[t]] == names;
      assert front + [] == front;
    }
  }

  lemma JoinSnoc(items: seq<string>, item: string)
    ensures |Join(items + [item])| == (if items == [] then 0 else |Join(items)| + 1) + |item|
  {
    assert (items + [item])[..|items|] == items;
  }

  lemma DropsAreFewer(cands: Candidates, n: nat, t: nat)
    requires t < |cands|
    ensures |Decimal(Drops(cands, n)[t])| <= |Decimal(Sizes(cands)[t])|
  {
    hide Part;
    DigitsGrow(Drops(cands, n)[t], Sizes(cands)[t]);
  }

  lemma MarksAreShorter(names: seq<string>, labels: Labels, drops: seq<nat>, scanHit: bool)
    requires |names| == |drops| == TIER_COUNT
    ensures var tiers := Named(names, drops, scanHit);
            |RenderMarks(labels, tiers != [], tiers)| <= |RenderMarks(labels, true, names)|
  {
    JoinFewer(names, drops, scanHit);
    JoinSnoc(names[..3], names[3]);
    assert names[..3] + [names[3]] == names;
    assert |Join(names)| >= 1;
    assert Join([]) == "";
    hide Named, Join;
  }

  /** The context before its tokens are counted is no longer than the worst one. */
  lemma EnvelopeIsShorter(p: Problem, n: nat)
    requires Posed(p)
    ensures Estimate(|Render(Envelope(p, n))|) <= Worst(p, Cut(p.cands, n))
  {
    var c := Envelope(p, n);
    var sizes := Sizes(p.cands);
    forall t | 0 <= t < TIER_COUNT ensures |Decimal(c.drops[t])| <= |Decimal(sizes[t])| {
      DropsAreFewer(p.cands, n, t);
    }
    MarksAreShorter(p.frame.labels.names, p.frame.labels, c.drops, p.scanHit);
    hide Decimal, RenderMarks, RenderHead, RenderBody, Sizes, Drops, Cut, Named;
    DropsAreShorter(p.frame.labels, c.drops, sizes);
  }

  lemma DropsAreShorter(labels: Labels, a: seq<nat>, b: seq<nat>)
    requires |a| == |b| == TIER_COUNT && forall t | 0 <= t < TIER_COUNT :: |Decimal(a[t])| <= |Decimal(b[t])|
    ensures |RenderDrops(labels, a)| <= |RenderDrops(labels, b)|
  {
    hide Decimal;
    assert |Decimal(a[0])| <= |Decimal(b[0])| && |Decimal(a[1])| <= |Decimal(b[1])|;
    assert |Decimal(a[2])| <= |Decimal(b[2])| && |Decimal(a[3])| <= |Decimal(b[3])|;
  }

  // ---------------------------------------------------------------- the budget

  lemma FirstFits(p: Problem)
    requires Posed(p)
    ensures Fitting(p)(Cut(p.cands, 0))
  {
    hide Render;
    NothingCut(p.cands, Fitting(p));
    NothingCosts(Cut(p.cands, 0));
  }

  lemma {:induction false} NothingCosts(packed: Candidates)
    requires forall t | 0 <= t < |packed| :: packed[t] == []
    ensures SumItems(packed) == 0
  {
    if packed != [] {
      NothingCosts(packed[..|packed| - 1]);
    }
  }

  lemma {:induction false} PackedFits(p: Problem, n: nat)
    requires Posed(p) && n <= Total(p.cands) && Fitting(p)(Cut(p.cands, n))
    ensures Fitting(p)(Cut(p.cands, Count(p.cands, Fitting(p), n)))
    decreases Total(p.cands) - n
  {
    hide Fitting, Total, Cut;
    if n < Total(p.cands) && Fitting(p)(Cut(p.cands, n + 1)) {
      PackedFits(p, n + 1);
    }
  }

  /** Main result: the tokens reported never exceed the budget, and when the envelope is tracked
      the estimate of the whole context that is returned does not exceed them. */
  lemma UsedIsWithinBudget(p: Problem)
    requires Posed(p)
    ensures Build(p).used <= p.budget
    ensures TracksEnvelope(p) ==> Estimate(|Render(Build(p))|) <= Build(p).used
  {
    hide Count, Cut, Part, Total, Offset, SumItems, Worst, TracksEnvelope, Render, Decimal, Named, Drops;
    var n := Packed(p);
    FirstFits(p);
    PackedFits(p, 0);
    EnvelopeIsShorter(p, n);
    if TracksEnvelope(p) {
      var c := Envelope(p, n);
      DigitsGrow(Build(p).used, p.budget);
      UsedShortens(c, Build(p).used);
    }
  }

  lemma UsedShortens(c: Context, used: nat)
    requires WellFormed(c) && |Decimal(used)| <= |Decimal(c.used)|
    ensures |Render(c.(used := used))| <= |Render(c)|
  {
    hide Decimal, RenderHead, RenderBody, RenderDrops, RenderMarks;
  }

  // ---------------------------------------------------------------- the longest prefix

  lemma {:induction false} JoinGrows(items: seq<string>, n: nat)
    requires n <= |items|
    ensures |Join(items[..n])| <= |Join(items)| && TierTokens(items[..n]) <= TierTokens(items)
  {
    if n == |items| {
      assert items[..n] == items;
    } else {
      var front := items[..|items| - 1];
      JoinGrows(front, n);
      assert front[..n] == items[..n];
      JoinSnoc(front, items[|items| - 1]);
      assert front + [items[|items| - 1]] == items;
    }
  }

  lemma PartGrows(cands: Candidates, n: nat, m: nat, t: nat)
    requires t < |cands| && n <= m
    ensures |List(Cut(cands, n)[t])| <= |List(Cut(cands, m)[t])|
    ensures TierTokens(Cut(cands, n)[t]) <= TierTokens(Cut(cands, m)[t])
  {
    var a, b := Part(cands, n, t), Part(cands, m, t);
    assert a == b[..|a|];
    JoinGrows(b, |a|);
    hide Part, Join, TierTokens;
  }

  lemma {:induction false} SumGrows(a: Candidates, b: Candidates)
    requires |a| == |b| && forall t | 0 <= t < |a| :: TierTokens(a[t]) <= TierTokens(b[t])
    ensures SumItems(a) <= SumItems(b)
  {
    hide TierTokens;
    if a != [] {
      SumGrows(a[..|a| - 1], b[..|b| - 1]);
    }
  }

  lemma WorstGrows(p: Problem, a: Candidates, b: Candidates)
    requires Posed(p) && |a| == |b| == TIER_COUNT && forall t | 0 <= t < TIER_COUNT :: |List(a[t])| <= |List(b[t])|
    ensures Worst(p, a) <= Worst(p, b)
  {
    hide List, Decimal, RenderMarks, RenderDrops, Sizes;
    assert |List(a[0])| <= |List(b[0])| && |List(a[1])| <= |List(b[1])|;
    assert |List(a[2])| <= |List(b[2])| && |List(a[3])| <= |List(b[3])|;
  }

  lemma FewerFit(p: Problem, n: nat, m: nat)
    requires Posed(p) && n <= m && Fitting(p)(Cut(p.cands, m))
    ensures Fitting(p)(Cut(p.cands, n))
  {
    hide Cut, Part, List, TierTokens, Worst, TracksEnvelope, SumItems;
    var a, b := Cut(p.cands, n), Cut(p.cands, m);
    forall t | 0 <= t < TIER_COUNT
      ensures |List(a[t])| <= |List(b[t])| && TierTokens(a[t]) <= TierTokens(b[t])
    {
      PartGrows(p.cands, n, m, t);
    }
    SumGrows(a, b);
    WorstGrows(p, a, b);
  }

  /** Main result: the context packs the longest prefix of the tier-ordered candidates that is
      within the budget: the first n fit exactly when n is no more than what is packed. */
  lemma PacksTheLongestPrefix(p: Problem, n: nat)
    requires Posed(p) && n <= Total(p.cands)
    ensures Build(p).packed == Cut(p.cands, Packed(p))
    ensures WithinBudget(p, Cut(p.cands, n)) <==> n <= Packed(p)
  {
    hide WithinBudget, Cut, Count, Total;
    FirstFits(p);
    assert Antitone(p.cands, Fitting(p)) by {
      forall a: nat, b: nat | a <= b <= Total(p.cands) && Fitting(p)(Cut(p.cands, b)) ensures Fitting(p)(Cut(p.cands, a)) {
        FewerFit(p, a, b);
      }
    }
    hide Antitone;
    PackingIsLongest(p.cands, Fitting(p), 0, n);
  }
}
