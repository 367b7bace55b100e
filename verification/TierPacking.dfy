/** Greedy packing of tiers of candidates, most urgent tier first (the loop of
    backend/activity_context.py): the first candidate that does not fit ends it. */
module TierPacking {

  /** Candidates by tier, as the texts they are serialized to. */
  type Candidates = seq<seq<string>>

  /** Whether what is packed so far is within the budget. */
  type Fits = Candidates -> bool

  function Offset(cands: Candidates, t: nat): nat
    requires t <= |cands|
  {
    if t == 0 then 0 else Offset(cands, t - 1) + |cands[t - 1]|
  }

  function Total(cands: Candidates): nat {
    Offset(cands, |cands|)
  }

  function Clamp(n: int, max: nat): nat {
    if n < 0 then 0 else if n > max then max else n
  }

  /** What the first n candidates hold of a tier. */
  function Part(cands: Candidates, n: nat, t: nat): (r: seq<string>)
    requires t < |cands|
    ensures |r| <= |cands[t]|
  {
    cands[t][..Clamp(n - Offset(cands, t), |cands[t]|)]
  }

  /** The first n candidates, taken tier by tier. */
  function Cut(cands: Candidates, n: nat): (r: Candidates)
    ensures |r| == |cands|
  {
    seq(|cands|, t requires 0 <= t < |cands| => Part(cands, n, t))
  }

  /** What the first n candidates leave out of each tier. */
  function Drops(cands: Candidates, n: nat): (r: seq<nat>)
    ensures |r| == |cands|
  {
    seq(|cands|, t requires 0 <= t < |cands| => |cands[t]| - |Part(cands, n, t)|)
  }

  /** How many candidates go in, when n already did. */
  function Count(cands: Candidates, fits: Fits, n: nat): (m: nat)
    requires n <= Total(cands)
    ensures n <= m <= Total(cands)
    decreases Total(cands) - n
  {
    if n < Total(cands) && fits(Cut(cands, n + 1)) then Count(cands, fits, n + 1) else n
  }

  // ---------------------------------------------------------------- cutting

  lemma {:induction false} OffsetsGrow(cands: Candidates, t: nat, u: nat)
    requires t < u <= |cands|
    ensures Offset(cands, t) + |cands[t]| <= Offset(cands, u)
  {
    if t < u - 1 {
      OffsetsGrow(cands, t, u - 1);
    }
  }

  lemma PartNext(cands: Candidates, t: nat, i: nat, u: nat)
    requires t < |cands| && i < |cands[t]| && u < |cands|
    ensures var n := Offset(cands, t) + i;
            if u == t then Part(cands, n, u) == cands[t][..i] && Part(cands, n + 1, u) == cands[t][..i + 1]
            else Part(cands, n + 1, u) == Part(cands, n, u)
  {
    if u < t {
      OffsetsGrow(cands, u, t);
    } else if t < u {
      OffsetsGrow(cands, t, u);
    }
    hide Offset;
  }

  /** One more candidate in the cut is one more item at the end of its tier. */
  lemma CutNext(cands: Candidates, t: nat, i: nat)
    requires t < |cands| && i < |cands[t]|
    ensures var n := Offset(cands, t) + i;
            && Cut(cands, n)[t] == cands[t][..i]
            && Cut(cands, n + 1) == Cut(cands, n)[t := cands[t][..i + 1]]
            && Cut(cands, n) == Cut(cands, n + 1)[t := cands[t][..i]]
  {
    hide Offset, Part;
    var n := Offset(cands, t) + i;
    PartNext(cands, t, i, t);
    forall u | 0 <= u < |cands| && u != t ensures Cut(cands, n)[u] == Cut(cands, n + 1)[u] {
      PartNext(cands, t, i, u);
    }
  }

  /** What a cut leaves of a tier that it does not reach, or has gone past. */
  lemma PartOf(cands: Candidates, n: nat, t: nat)
    requires t < |cands|
    ensures n <= Offset(cands, t) ==> Part(cands, n, t) == []
    ensures n >= Offset(cands, t) + |cands[t]| ==> Part(cands, n, t) == cands[t]
  {
    hide Offset;
  }

  lemma CountFrom(cands: Candidates, fits: Fits, n: nat)
    requires n < Total(cands)
    ensures Count(cands, fits, n) == if fits(Cut(cands, n + 1)) then Count(cands, fits, n + 1) else n
  {
  }

  /** The next tier starts where this one ends, within the total. */
  lemma NextOffset(cands: Candidates, t: nat)
    requires t < |cands|
    ensures Offset(cands, t + 1) == Offset(cands, t) + |cands[t]| <= Total(cands)
  {
    if t + 1 < |cands| {
      OffsetsGrow(cands, t + 1, |cands|);
    }
  }

  // ---------------------------------------------------------------- the loop

  /** Where the packing stands before a tier. */
  ghost predicate Before(cands: Candidates, fits: Fits, t: nat, packed: Candidates, halted: bool)
    requires t <= |cands|
  {
    var end := Count(cands, fits, 0);
    && Offset(cands, t) <= Total(cands)
    && if halted then packed == Cut(cands, end) && end <= Offset(cands, t)
       else packed == Cut(cands, Offset(cands, t)) && end == Count(cands, fits, Offset(cands, t))
  }

  method PackTier(cands: Candidates, fits: Fits, t: nat, packed0: Candidates, halted0: bool)
    returns (packed: Candidates, dropped: nat, halted: bool)
    requires t < |cands| && Before(cands, fits, t, packed0, halted0)
    ensures Before(cands, fits, t + 1, packed, halted)
    ensures dropped == |cands[t]| - |Part(cands, Count(cands, fits, 0), t)|
  {
    hide *;
    var items := cands[t];
    packed, dropped, halted := packed0, 0, halted0;
    ghost var start, end := Offset(cands, t), Count(cands, fits, 0);
    NextOffset(cands, t);
    PartOf(cands, end, t);
    Entering(cands, fits, t, packed0, halted0);
    var idx := 0;
    while idx < |items|
      invariant idx <= |items| && halted == halted0 && dropped == 0
      invariant halted ==> idx == 0 && packed == packed0
      invariant !halted ==> packed == Cut(cands, start + idx) && end == Count(cands, fits, start + idx)
    {
      if halted {
        dropped := |items| - idx;
        break;
      }
      CutNext(cands, t, idx);
      CountFrom(cands, fits, start + idx);
      packed := packed[t := packed[t] + [items[idx]]];
      assert items[..idx] + [items[idx]] == items[..idx + 1];
      if !fits(packed) {
        packed := packed[t := packed[t][..|packed[t]| - 1]];
        assert items[..idx + 1][..idx] == items[..idx];
        PartNext(cands, t, idx, t);
        dropped := |items| - idx;
        halted := true;
        break;
      }
      idx := idx + 1;
    }
    Leaving(cands, fits, t, packed, halted);
  }

  lemma Entering(cands: Candidates, fits: Fits, t: nat, packed: Candidates, halted: bool)
    requires t < |cands| && Before(cands, fits, t, packed, halted)
    ensures halted ==> packed == Cut(cands, Count(cands, fits, 0)) && Count(cands, fits, 0) <= Offset(cands, t)
    ensures !halted ==> packed == Cut(cands, Offset(cands, t)) && Offset(cands, t) <= Total(cands)
                        && Count(cands, fits, 0) == Count(cands, fits, Offset(cands, t))
  {
    hide Cut, Count, Offset, Total;
  }

  lemma Leaving(cands: Candidates, fits: Fits, t: nat, packed: Candidates, halted: bool)
    requires t < |cands| && Offset(cands, t) + |cands[t]| <= Total(cands)
    requires halted ==> packed == Cut(cands, Count(cands, fits, 0))
                        && Count(cands, fits, 0) <= Offset(cands, t) + |cands[t]|
    requires !halted ==> packed == Cut(cands, Offset(cands, t) + |cands[t]|)
                         && Count(cands, fits, 0) == Count(cands, fits, Offset(cands, t) + |cands[t]|)
    ensures Before(cands, fits, t + 1, packed, halted)
  {
    hide Cut, Count, Part, Offset, Total;
    NextOffset(cands, t);
  }

  method PackTiers(cands: Candidates, fits: Fits) returns (packed: Candidates, drops: seq<nat>)
    ensures packed == Cut(cands, Count(cands, fits, 0)) && drops == Drops(cands, Count(cands, fits, 0))
  {
    hide *;
    var halted := false;
    packed, drops := seq(|cands|, t => []), [];
    ghost var end := Count(cands, fits, 0);
    NothingCut(cands, fits);
    for t := 0 to |cands|
      invariant |drops| == t && Before(cands, fits, t, packed, halted)
      invariant forall u | 0 <= u < t :: drops[u] == |cands[u]| - |Part(cands, end, u)|
    {
      var dropped;
      packed, dropped, halted := PackTier(cands, fits, t, packed, halted);
      drops := drops + [dropped];
    }
    AtTheEnd(cands, fits, packed, halted);
    DropsAre(cands, end, drops);
  }

  lemma DropsAre(cands: Candidates, n: nat, drops: seq<nat>)
    requires |drops| == |cands| && forall u | 0 <= u < |cands| :: drops[u] == |cands[u]| - |Part(cands, n, u)|
    ensures drops == Drops(cands, n)
  {
    hide Part;
  }

  lemma NothingCut(cands: Candidates, fits: Fits)
    ensures seq(|cands|, t => []) == Cut(cands, 0)
    ensures Before(cands, fits, 0, seq(|cands|, t => []), false)
  {
  }

  lemma AtTheEnd(cands: Candidates, fits: Fits, packed: Candidates, halted: bool)
    requires Before(cands, fits, |cands|, packed, halted)
    ensures packed == Cut(cands, Count(cands, fits, 0))
  {
  }

  // ---------------------------------------------------------------- what the packing is

  /** Candidates go in one by one, and the first that does not fit ends the packing. */
  lemma {:induction false} CountStopsAtTheFirst(cands: Candidates, fits: Fits, from: nat)
    requires from <= Total(cands)
    ensures var end := Count(cands, fits, from);
            && (forall k | from < k <= end :: fits(Cut(cands, k)))
            && (end < Total(cands) ==> !fits(Cut(cands, end + 1)))
    decreases Total(cands) - from
  {
    hide Cut, Total;
    if from < Total(cands) && fits(Cut(cands, from + 1)) {
      CountStopsAtTheFirst(cands, fits, from + 1);
    }
  }

  /** The first n candidates are n candidates. */
  lemma {:induction false} CutHasSize(cands: Candidates, n: nat, t: nat)
    requires t <= |cands|
    ensures Offset(Cut(cands, n), t) == Clamp(n, Offset(cands, t))
  {
    if t > 0 {
      CutHasSize(cands, n, t - 1);
    }
  }

  /** Fewer candidates fit whenever more do. */
  ghost predicate Antitone(cands: Candidates, fits: Fits) {
    forall n: nat, m: nat | n <= m <= Total(cands) && fits(Cut(cands, m)) :: fits(Cut(cands, n))
  }

  /** Main result: the packing is the longest prefix of the tier-ordered candidates that fits. */
  lemma {:induction false} PackingIsLongest(cands: Candidates, fits: Fits, from: nat, n: nat)
    requires Antitone(cands, fits) && from <= n <= Total(cands) && fits(Cut(cands, from))
    ensures fits(Cut(cands, n)) <==> n <= Count(cands, fits, from)
    decreases Total(cands) - from
  {
    if from < Total(cands) {
      if fits(Cut(cands, from + 1)) {
        if n > from {
          PackingIsLongest(cands, fits, from + 1, n);
        }
      } else if n > from {
        assert !fits(Cut(cands, n));
      }
    }
  }

  /** Main result: each tier is packed with a prefix of its candidates and drops the others, and
      nothing is packed after a tier that dropped something. */
  lemma PackedAndDropped(cands: Candidates, n: nat, t: nat, u: nat)
    requires t < |cands|
    ensures Cut(cands, n)[t] <= cands[t] && |Cut(cands, n)[t]| + Drops(cands, n)[t] == |cands[t]|
    ensures t < u < |cands| && Drops(cands, n)[t] > 0 ==> Cut(cands, n)[u] == []
  {
    if t < u < |cands| {
      OffsetsGrow(cands, t, u);
    }
    hide Offset;
  }
}
