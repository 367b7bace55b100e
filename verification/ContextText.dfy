/** What the shared context says (backend/activity_context.py): its text is the JSON object of its
    fields with sorted keys, and its counts and marks tell what was left out. */
module ContextText {
  import opened Common
  import opened Text
  import opened TierPacking
  import opened Context

  // ---------------------------------------------------------------- JSON

  /** The members of a compact JSON object, before its closing brace. */
  function Opened(fields: seq<(string, string)>): string {
    if fields == [] then "{"
    else
      var init, f := fields[..|fields| - 1], fields[|fields| - 1];
      Opened(init) + (if init == [] then "" else ",") + (Key(f.0) + f.1)
  }

  function Object(fields: seq<(string, string)>): string {
    Opened(fields) + "}"
  }

  /** The dropped counts by tier name. */
  function DropFields(drops: seq<nat>): seq<(string, string)>
    requires |drops| == TIER_COUNT
  {
    [("claims", Decimal(drops[1])), ("conflicts", Decimal(drops[0])),
     ("live_sessions", Decimal(drops[2])), ("recent_events", Decimal(drops[3]))]
  }

  /** The fields of a context in the order of their names. */
  function Fields(c: Context): seq<(string, string)>
    requires WellFormed(c)
  {
    [("budget_tokens", Decimal(c.budget)), ("claims", List(c.packed[1])), ("conflicts", List(c.packed[0])),
     ("dropped_counts", Object(DropFields(c.drops))), ("generated_at", c.frame.generatedAt),
     ("live_sessions", List(c.packed[2])), ("recent_events", List(c.packed[3])), ("repo", c.frame.repo),
     ("sources", c.frame.sources), ("truncated", if c.truncated then "true" else "false"),
     ("truncated_tiers", List(c.tiers)), ("used_tokens", Decimal(c.used))]
  }

  lemma OpenedSnoc(fields: seq<(string, string)>, f: (string, string))
    ensures Opened(fields + [f]) == Opened(fields) + (if fields == [] then "" else ",") + (Key(f.0) + f.1)
  {
    assert (fields + [f])[..|fields|] == fields;
  }

  /** One more member after others. */
  lemma Glue(x: string, l: string, k: string, v: string)
    requires l == "," + k
    ensures x + l + v == x + "," + (k + v)
  {
  }

  lemma Assoc(x: string, y: string, z: string)
    ensures x + (y + z) == x + y + z
  {
  }

  /** The first three fields. */
  lemma HeadIs(c: Context)
    requires WellFormed(c) && c.frame.labels == JSON_LABELS
    ensures RenderHead(c.frame, c.budget, c.packed) == Opened(Fields(c)[..3])
  {
    var f := Fields(c);
    assert f[..1] == [] + [f[0]] && f[..2] == f[..1] + [f[1]] && f[..3] == f[..2] + [f[2]];
    hide Decimal, List, Key, Opened;
    OpenedSnoc([], f[0]);
    OpenedSnoc(f[..1], f[1]);
    OpenedSnoc(f[..2], f[2]);
    Empty();
    var x1 := "{" + (Key("budget_tokens") + f[0].1);
    Assoc("{", Key("budget_tokens"), f[0].1);
    Glue(x1, JSON_LABELS.claims, Key("claims"), f[1].1);
    Glue(x1 + "," + (Key("claims") + f[1].1), JSON_LABELS.conflicts, Key("conflicts"), f[2].1);
  }

  lemma Empty()
    ensures Opened([]) == "{" && "{" + "" == "{"
  {
  }

  /** A text in front of a chain of labels and values. */
  lemma InFront(x: string, y: string, l: string, v: string)
    ensures x + (y + l + v) == (x + y) + l + v
  {
    Assoc(x, y + l, v);
    Assoc(x, y, l);
  }

  /** One more field, written behind others. */
  lemma OneMore(x: string, fields: seq<(string, string)>, name: string, v: string)
    requires x == Opened(fields) && fields != []
    ensures x + ("," + Key(name)) + v == Opened(fields + [(name, v)])
  {
    hide Key, Opened;
    OpenedSnoc(fields, (name, v));
    Glue(x, "," + Key(name), Key(name), v);
  }

  lemma DropsAre(x: string, drops: seq<nat>)
    requires |drops| == TIER_COUNT
    ensures x + RenderDrops(JSON_LABELS, drops) == x + "," + (Key("dropped_counts") + Opened(DropFields(drops)))
  {
    var f := DropFields(drops);
    hide Decimal, Key, Opened;
    Empty();
    OpenedSnoc([], f[0]);
    assert [] + [f[0]] == [f[0]] && [f[0], f[1]] == [f[0]] + [f[1]] && [f[0], f[1], f[2]] == [f[0], f[1]] + [f[2]];
    assert f == [f[0], f[1], f[2]] + [f[3]];
    var k := "," + Key("dropped_counts");
    var y := Opened([f[0]]);
    FirstDrop(Key("dropped_counts"), Key("claims"), f[0].1);
    var z := k + y;
    InFront(k, y, "," + Key("conflicts"), f[1].1);
    OneMore(y, [f[0]], "conflicts", f[1].1);
    var y1 := Opened([f[0], f[1]]);
    InFront(k, y1, "," + Key("live_sessions"), f[2].1);
    OneMore(y1, [f[0], f[1]], "live_sessions", f[2].1);
    var y2 := Opened([f[0], f[1], f[2]]);
    InFront(k, y2, "," + Key("recent_events"), f[3].1);
    OneMore(y2, [f[0], f[1], f[2]], "recent_events", f[3].1);
    DropsChain(drops);
    assert RenderDrops(JSON_LABELS, drops) == k + Opened(f);
    Assoc(x, k, Opened(f));
    Assoc(",", Key("dropped_counts"), Opened(f));
    Assoc(x, ",", Key("dropped_counts") + Opened(f));
  }

  lemma FirstDrop(a: string, b: string, v: string)
    ensures ("," + a + "{" + b) + v == ("," + a) + ("{" + "" + (b + v))
  {
  }

  lemma DropsChain(drops: seq<nat>)
    requires |drops| == TIER_COUNT
    ensures RenderDrops(JSON_LABELS, drops)
            == ("," + Key("dropped_counts") + "{" + Key("claims")) + Decimal(drops[1]) + ("," + Key("conflicts")) + Decimal(drops[0])
               + ("," + Key("live_sessions")) + Decimal(drops[2]) + ("," + Key("recent_events")) + Decimal(drops[3])
  {
    hide Decimal, Key;
  }

  /** The brace that closes the dropped counts belongs to their value. */
  lemma ClosesObject(x: string, k: string, o: string, k2: string, v: string)
    ensures (x + "," + (k + o)) + (("}" + "," + k2) + v) == (x + "," + (k + (o + "}"))) + ("," + k2) + v
  {
  }

  lemma BodyIs(c: Context)
    requires WellFormed(c) && c.frame.labels == JSON_LABELS
    ensures var f := Fields(c);
            (Opened(f[..3]) + "," + (Key("dropped_counts") + Opened(DropFields(c.drops)))) + RenderBody(c.frame, c.packed)
            == Opened(f[..9])
  {
    var f := Fields(c);
    var o := Opened(DropFields(c.drops));
    var x := Opened(f[..3]) + "," + (Key("dropped_counts") + o);
    hide Decimal, Key, Opened, List;
    assert f[..4] == f[..3] + [f[3]] && f[..5] == f[..4] + [f[4]] && f[..6] == f[..5] + [f[5]];
    assert f[..7] == f[..6] + [f[6]] && f[..8] == f[..7] + [f[7]] && f[..9] == f[..8] + [f[8]];
    OpenedSnoc(f[..3], f[3]);
    var y1 := ("}" + "," + Key("generated_at")) + f[4].1;
    ClosesObject(Opened(f[..3]), Key("dropped_counts"), o, Key("generated_at"), f[4].1);
    OneMore(Opened(f[..4]), f[..4], "generated_at", f[4].1);
    assert x + y1 == Opened(f[..5]);
    InFront(x, y1, "," + Key("live_sessions"), f[5].1);
    OneMore(Opened(f[..5]), f[..5], "live_sessions", f[5].1);
    var y2 := y1 + ("," + Key("live_sessions")) + f[5].1;
    InFront(x, y2, "," + Key("recent_events"), f[6].1);
    OneMore(Opened(f[..6]), f[..6], "recent_events", f[6].1);
    var y3 := y2 + ("," + Key("recent_events")) + f[6].1;
    InFront(x, y3, "," + Key("repo"), f[7].1);
    OneMore(Opened(f[..7]), f[..7], "repo", f[7].1);
    var y4 := y3 + ("," + Key("repo")) + f[7].1;
    InFront(x, y4, "," + Key("sources"), f[8].1);
    OneMore(Opened(f[..8]), f[..8], "sources", f[8].1);
    assert RenderBody(c.frame, c.packed) == y4 + ("," + Key("sources")) + f[8].1;
  }

  lemma MarksAre(c: Context)
    requires WellFormed(c) && c.frame.labels == JSON_LABELS
    ensures var f := Fields(c);
            Opened(f[..9]) + RenderMarks(c.frame.labels, c.truncated, c.tiers) == Opened(f[..11])
  {
    var f := Fields(c);
    var x := Opened(f[..9]);
    hide Decimal, Key, Opened, List;
    assert f[..10] == f[..9] + [f[9]] && f[..11] == f[..10] + [f[10]];
    Assoc(x, "," + Key("truncated"), f[9].1);
    OneMore(x, f[..9], "truncated", f[9].1);
    InFront(x, ("," + Key("truncated")) + f[9].1, "," + Key("truncated_tiers"), f[10].1);
    OneMore(Opened(f[..10]), f[..10], "truncated_tiers", f[10].1);
  }

  /** Main result: the text whose length is reckoned with is the JSON object of the context's fields,
      sorted by name. */
  lemma RenderIsJson(c: Context)
    requires WellFormed(c) && c.frame.labels == JSON_LABELS
    ensures Render(c) == Object(Fields(c))
  {
    var f := Fields(c);
    hide Decimal, Key, Opened, List, RenderHead, RenderDrops, RenderBody, RenderMarks;
    HeadIs(c);
    DropsAre(Opened(f[..3]), c.drops);
    BodyIs(c);
    MarksAre(c);
    OneMore(Opened(f[..11]), f[..11], "used_tokens", f[11].1);
    assert f[..11] + [f[11]] == f;
  }

  /** A list is written as its items between commas. */
  lemma {:induction false} ListIs(first: string, rest: seq<string>)
    ensures List([]) == "[]" && List([first]) == "[" + first + "]"
    ensures rest != [] ==> Join([first] + rest) == first + "," + Join(rest)
    decreases |rest|
  {
    if rest != [] {
      var all := [first] + rest;
      var init, last := rest[..|rest| - 1], rest[|rest| - 1];
      assert all[..|all| - 1] == [first] + init;
      if init == [] {
        assert all[..|all| - 1] == [first];
      } else {
        ListIs(first, init);
        Assoc(first + ",", Join(init) + ",", last);
        Assoc(first + ",", Join(init), ",");
      }
    }
  }

  // ---------------------------------------------------------------- counts and marks

  /** The least number of tokens that covers a text, four characters to a token. */
  lemma EstimateIsLeast(length: nat, tokens: nat)
    ensures Estimate(length) <= tokens <==> length <= 4 * tokens
  {
  }

  function Marks(p: Problem, drops: seq<nat>): seq<string>
    requires Posed(p) && |drops| == TIER_COUNT
  {
    var names := p.frame.labels.names;
    (if drops[0] > 0 then [names[0]] else []) + (if drops[1] > 0 then [names[1]] else [])
    + (if drops[2] > 0 then [names[2]] else []) + (if drops[3] > 0 || p.scanHit then [names[3]] else [])
  }

  lemma NamedAre(names: seq<string>, drops: seq<nat>, scanHit: bool)
    requires |names| == |drops| == TIER_COUNT
    ensures Named(names, drops, scanHit)
            == (if drops[0] > 0 then [names[0]] else []) + (if drops[1] > 0 then [names[1]] else [])
               + (if drops[2] > 0 then [names[2]] else []) + (if drops[3] > 0 || scanHit then [names[3]] else [])
  {
    var n3, d3 := names[..3], drops[..3];
    assert n3[..2] == names[..2] && n3[..2][..1] == names[..1] && names[..1][..0] == [];
    assert d3[..2] == drops[..2] && d3[..2][..1] == drops[..1] && drops[..1][..0] == [];
    assert Named([], [], scanHit) == [];
    assert Named(names[..1], drops[..1], scanHit) == [] + if drops[0] > 0 then [names[0]] else [];
    assert Named(names[..2], drops[..2], scanHit)
        == Named(names[..1], drops[..1], scanHit) + if drops[1] > 0 then [names[1]] else [];
    assert Named(n3, d3, scanHit) == Named(names[..2], drops[..2], scanHit) + if drops[2] > 0 then [names[2]] else [];
  }

  /** Main result: of each tier a context shows a prefix and counts what it drops; a tier is marked, in
      order, exactly when it dropped something, and the last also when the scan hit its limit; the
      context is truncated exactly when some tier is marked; and the tokens reported are those of
      its whole text with the budget in their place, up to the budget, if the budget covers the
      largest envelope, and else those of its items one by one. */
  lemma ContextTells(p: Problem)
    requires Posed(p)
    ensures var c := Build(p);
            && c.frame == p.frame && c.budget == p.budget
            && (forall t | 0 <= t < TIER_COUNT :: c.packed[t] <= p.cands[t] && |c.packed[t]| + c.drops[t] == |p.cands[t]|)
            && c.tiers == Marks(p, c.drops)
            && (c.truncated <==> p.scanHit || exists t | 0 <= t < TIER_COUNT :: c.drops[t] > 0)
    ensures var c := Build(p);
            var none := seq(TIER_COUNT, t => []);
            var counts := seq(TIER_COUNT, t requires 0 <= t < TIER_COUNT => |p.cands[t]|);
            var envelope := Context(p.frame, p.budget, p.budget, true, p.frame.labels.names, counts, none);
            c.used == if Estimate(|Render(envelope)|) <= p.budget then Min(p.budget, Estimate(|Render(c.(used := p.budget))|))
                      else TierTokens(c.packed[0]) + TierTokens(c.packed[1]) + TierTokens(c.packed[2]) + TierTokens(c.packed[3])
  {
    hide Count, Part, Total, Offset, Render, TierTokens;
    var c, n := Build(p), Packed(p);
    forall t | 0 <= t < TIER_COUNT ensures c.packed[t] <= p.cands[t] && |c.packed[t]| + c.drops[t] == |p.cands[t]| {
      PackedAndDropped(p.cands, n, t, t);
    }
    NamedAre(p.frame.labels.names, c.drops, p.scanHit);
    NothingCut(p.cands, Fitting(p));
    hide Named, Cut, Drops, Fitting;
    assert c.(used := p.budget) == Envelope(p, n);
    FourTiers(c.packed);
    assert Sizes(p.cands) == seq(TIER_COUNT, t requires 0 <= t < TIER_COUNT => |p.cands[t]|);
    assert seq(|p.cands|, t => []) == seq<seq<string>>(TIER_COUNT, t => []);
    hide SumItems;
    if exists t | 0 <= t < TIER_COUNT :: c.drops[t] > 0 {
      assert c.drops[0] > 0 || c.drops[1] > 0 || c.drops[2] > 0 || c.drops[3] > 0;
    }
  }

  lemma FourTiers(packed: Candidates)
    requires |packed| == TIER_COUNT
    ensures SumItems(packed) == TierTokens(packed[0]) + TierTokens(packed[1]) + TierTokens(packed[2]) + TierTokens(packed[3])
  {
    hide TierTokens;
    assert packed[..3][..2] == packed[..2] && packed[..2][..1] == packed[..1] && packed[..1][..0] == [];
    assert SumItems(packed[..1]) == SumItems([]) + TierTokens(packed[0]);
    assert SumItems(packed[..2]) == SumItems(packed[..1]) + TierTokens(packed[1]);
    assert SumItems(packed[..3]) == SumItems(packed[..2]) + TierTokens(packed[2]);
  }
}
