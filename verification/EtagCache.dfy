/** The bounded LRU of replayable responses (backend/gh_etag_cache.py). Entries are kept from
    least to most recently used. */
module EtagCache {
  import opened Common
  import opened Lru

  datatype CachedResponse = CachedResponse(etag: string, content: seq<bv8>, headers: map<string, string>)

  /** A hit moves to the most recently used end. */
  function Touched(es: Entries<CachedResponse>, key: string): Entries<CachedResponse> {
    match Find(es, key)
    case None => es
    case Some(e) => Without(es, key) + [(key, e)]
  }

  function Trim(es: Entries<CachedResponse>, maxEntries: nat): Entries<CachedResponse> {
    if |es| > maxEntries then es[|es| - maxEntries..] else es
  }

  function Stored(es: Entries<CachedResponse>, key: string, e: CachedResponse, maxEntries: nat, maxBody: nat): Entries<CachedResponse> {
    if |e.content| > maxBody then es else Trim(Without(es, key) + [(key, e)], maxEntries)
  }

  lemma StepFacts(es: Entries<CachedResponse>, key: string, e: CachedResponse, maxEntries: nat, maxBody: nat)
    requires Distinct(es) && |es| <= maxEntries
    ensures Distinct(Touched(es, key)) && |Touched(es, key)| == |es|
    ensures Distinct(Stored(es, key, e, maxEntries, maxBody)) && |Stored(es, key, e, maxEntries, maxBody)| <= maxEntries
  {
    MovedIsDistinct(es, key, e);
    if Find(es, key).Some? {
      MovedIsDistinct(es, key, Find(es, key).value);
    }
    hide Without, Find;
  }

  class Cache {
    const maxEntries: nat
    const maxBodyBytes: nat
    var entries: Entries<CachedResponse>

    predicate Valid()
      reads this
    {
      Distinct(entries) && |entries| <= maxEntries && maxEntries > 0 && maxBodyBytes > 0
    }

    constructor (maxEntries: nat, maxBodyBytes: nat)
      requires maxEntries > 0 && maxBodyBytes > 0
      ensures Valid() && entries == [] && this.maxEntries == maxEntries && this.maxBodyBytes == maxBodyBytes
    {
      this.maxEntries, this.maxBodyBytes, entries := maxEntries, maxBodyBytes, [];
    }

    method Get(key: string) returns (r: Option<CachedResponse>)
      requires Valid()
      modifies this
      ensures Valid() && r == Find(old(entries), key) && entries == Touched(old(entries), key)
    {
      StepFacts(entries, key, CachedResponse("", [], map[]), maxEntries, maxBodyBytes);
      r := Find(entries, key);
      if r.Some? {
        entries := Without(entries, key) + [(key, r.value)];
      }
    }

    method Put(key: string, e: CachedResponse)
      requires Valid()
      modifies this
      ensures Valid() && entries == Stored(old(entries), key, e, maxEntries, maxBodyBytes)
    {
      StepFacts(entries, key, e, maxEntries, maxBodyBytes);
      if |e.content| > maxBodyBytes {
        return;
      }
      entries := Without(entries, key) + [(key, e)];
      ghost var full := entries;
      while |entries| > maxEntries
        invariant |entries| <= |full| && entries == full[|full| - |entries|..]
        invariant |full| > maxEntries ==> |entries| >= maxEntries
        invariant |full| <= maxEntries ==> entries == full
      {
        entries := entries[1..];
      }
    }

    method Clear()
      modifies this
      ensures entries == []
    {
      entries := [];
    }
  }

  // ---------------------------------------------------------------- inclusion

  /** `a` is `b` with some elements left out. */
  predicate Subseq(a: Entries<CachedResponse>, b: Entries<CachedResponse>) {
    a == [] || (b != [] && if a[|a| - 1] == b[|b| - 1] then Subseq(a[..|a| - 1], b[..|b| - 1]) else Subseq(a, b[..|b| - 1]))
  }

  lemma {:induction false} SubseqHas(a: Entries<CachedResponse>, b: Entries<CachedResponse>, x: (string, CachedResponse))
    requires Subseq(a, b) && x in a
    ensures x in b
    decreases |b|
  {
    var a', b' := a[..|a| - 1], b[..|b| - 1];
    assert a == a' + [a[|a| - 1]] && b == b' + [b[|b| - 1]];
    if a[|a| - 1] == b[|b| - 1] {
      if x in a' {
        SubseqHas(a', b', x);
      }
    } else {
      SubseqHas(a, b', x);
    }
  }

  lemma SubseqSnoc(a: Entries<CachedResponse>, b: Entries<CachedResponse>, x: (string, CachedResponse))
    requires Subseq(a, b)
    ensures Subseq(a + [x], b + [x])
  {
    assert (a + [x])[..|a|] == a && (b + [x])[..|b|] == b;
  }

  lemma {:induction false} SubseqWeaken(a: Entries<CachedResponse>, b: Entries<CachedResponse>, x: (string, CachedResponse))
    requires Subseq(a, b)
    ensures Subseq(a, b + [x])
    decreases |b|, 1
  {
    assert (b + [x])[..|b|] == b;
    if a != [] && a[|a| - 1] == x {
      SubseqInit(a, b);
    }
  }

  lemma {:induction false} SubseqInit(a: Entries<CachedResponse>, b: Entries<CachedResponse>)
    requires Subseq(a, b) && a != []
    ensures Subseq(a[..|a| - 1], b)
    decreases |b|, 0
  {
    var b' := b[..|b| - 1];
    assert b == b' + [b[|b| - 1]];
    if a[|a| - 1] == b[|b| - 1] {
      SubseqWeaken(a[..|a| - 1], b', b[|b| - 1]);
    } else {
      SubseqInit(a, b');
      SubseqWeaken(a[..|a| - 1], b', b[|b| - 1]);
    }
  }

  lemma {:induction false} SubseqWithout(a: Entries<CachedResponse>, b: Entries<CachedResponse>, key: string)
    requires Subseq(a, b)
    ensures Subseq(Without(a, key), Without(b, key))
    decreases |b|
  {
    if a != [] {
      var y := b[|b| - 1];
      if a[|a| - 1] == y {
        SubseqWithout(a[..|a| - 1], b[..|b| - 1], key);
        SubseqSnoc(Without(a[..|a| - 1], key), Without(b[..|b| - 1], key), y);
      } else {
        SubseqWithout(a, b[..|b| - 1], key);
        SubseqWeaken(Without(a, key), Without(b[..|b| - 1], key), y);
      }
    }
  }

  /** Dropping the oldest of both, or of the shorter only, keeps the inclusion. */
  lemma {:induction false} SubseqTail(a: Entries<CachedResponse>, b: Entries<CachedResponse>)
    requires Subseq(a, b) && a != []
    ensures Subseq(a[1..], b[1..]) && Subseq(a[1..], b)
    decreases |b|
  {
    var a', b' := a[..|a| - 1], b[..|b| - 1];
    var x, y := a[|a| - 1], b[|b| - 1];
    assert b[1..] == (if b' == [] then [] else b'[1..] + [y]) && b == b' + [y];
    if x == y {
      if a' != [] {
        SubseqTail(a', b');
        assert a[1..] == a'[1..] + [x];
        assert b' != [];
        SubseqSnoc(a'[1..], b'[1..], y);
        SubseqSnoc(a'[1..], b', y);
      }
    } else {
      SubseqTail(a, b');
      assert b' != [];
      SubseqWeaken(a[1..], b'[1..], y);
      SubseqWeaken(a[1..], b', y);
    }
  }

  /** Two caches that differ in the entry limit only, after the same operations. */
  predicate Included(a: Entries<CachedResponse>, b: Entries<CachedResponse>, n: nat, m: nat) {
    Distinct(a) && Distinct(b) && |a| <= n && |b| <= m && Subseq(a, b) && (a == b || |a| == n)
  }

  lemma FindIncluded(a: Entries<CachedResponse>, b: Entries<CachedResponse>, key: string)
    requires Subseq(a, b) && Distinct(a) && Distinct(b)
    ensures Find(a, key).Some? ==> Find(b, key) == Find(a, key)
  {
    FindFacts(a, key);
    FindFacts(b, key);
    if Find(a, key).Some? {
      SubseqHas(a, b, (key, Find(a, key).value));
    }
  }

  lemma GetKeepsIncluded(a: Entries<CachedResponse>, b: Entries<CachedResponse>, n: nat, m: nat, key: string)
    requires Included(a, b, n, m)
    ensures Included(Touched(a, key), Touched(b, key), n, m)
  {
    StepFacts(a, key, CachedResponse("", [], map[]), n, 0);
    StepFacts(b, key, CachedResponse("", [], map[]), m, 0);
    FindIncluded(a, b, key);
    SubseqWithout(a, b, key);
    if Find(b, key).Some? {
      var x := (key, Find(b, key).value);
      if Find(a, key).None? {
        WithoutNothing(a, key);
        hide Subseq, Without, Find, Distinct, Stored;
        SubseqWeaken(a, Without(b, key), x);
      } else {
        hide Subseq, Without, Find, Distinct, Stored;
        SubseqSnoc(Without(a, key), Without(b, key), x);
      }
    }
  }

  /** Evicting the oldest of each keeps the inclusion. */
  lemma TrimKeepsIncluded(a: Entries<CachedResponse>, b: Entries<CachedResponse>, n: nat, m: nat)
    requires Distinct(a) && Distinct(b) && Subseq(a, b) && 0 < n <= m && |a| <= n + 1 && |b| <= m + 1
    requires a == b || n <= |a|
    requires |b| == m + 1 ==> |a| == n + 1
    ensures Included(Trim(a, n), Trim(b, m), n, m)
  {
    if |a| == n + 1 {
      SubseqTail(a, b);
      hide Subseq;
    }
  }

  lemma PutKeepsIncluded(a: Entries<CachedResponse>, b: Entries<CachedResponse>, n: nat, m: nat, key: string, e: CachedResponse, maxBody: nat)
    requires Included(a, b, n, m) && 0 < n <= m
    ensures Included(Stored(a, key, e, n, maxBody), Stored(b, key, e, m, maxBody), n, m)
  {
    if |e.content| <= maxBody {
      var x := (key, e);
      MovedIsDistinct(a, key, e);
      MovedIsDistinct(b, key, e);
      FindIncluded(a, b, key);
      SubseqWithout(a, b, key);
      hide Subseq, Without, Find, Distinct;
      SubseqSnoc(Without(a, key), Without(b, key), x);
      TrimKeepsIncluded(Without(a, key) + [x], Without(b, key) + [x], n, m);
    }
  }

  datatype Op = Get(key: string) | Put(key: string, e: CachedResponse) | Clear

  function Apply(es: Entries<CachedResponse>, op: Op, maxEntries: nat, maxBody: nat): Entries<CachedResponse> {
    match op
    case Get(key) => Touched(es, key)
    case Put(key, e) => Stored(es, key, e, maxEntries, maxBody)
    case Clear => []
  }

  function Run(ops: seq<Op>, maxEntries: nat, maxBody: nat): Entries<CachedResponse> {
    if ops == [] then [] else Apply(Run(ops[..|ops| - 1], maxEntries, maxBody), ops[|ops| - 1], maxEntries, maxBody)
  }

  /** Main result: after any operations, the cache with the smaller limit holds an
      order-preserving part of the cache with the larger one, and neither is over its limit. */
  lemma {:induction false} SmallerCacheIsIncluded(ops: seq<Op>, n: nat, m: nat, maxBody: nat)
    requires 0 < n <= m
    ensures Included(Run(ops, n, maxBody), Run(ops, m, maxBody), n, m)
  {
    if ops != [] {
      var init := ops[..|ops| - 1];
      SmallerCacheIsIncluded(init, n, m, maxBody);
      var a, b := Run(init, n, maxBody), Run(init, m, maxBody);
      match ops[|ops| - 1]
      case Get(key) => GetKeepsIncluded(a, b, n, m, key);
      case Put(key, e) => PutKeepsIncluded(a, b, n, m, key, e, maxBody);
      case Clear =>
    }
  }

  /** So raising the limit never loses a hit, and a hit is the same response. */
  lemma RaisingTheLimitLosesNoHit(ops: seq<Op>, n: nat, m: nat, maxBody: nat, key: string)
    requires 0 < n <= m && Find(Run(ops, n, maxBody), key).Some?
    ensures Find(Run(ops, m, maxBody), key) == Find(Run(ops, n, maxBody), key)
  {
    SmallerCacheIsIncluded(ops, n, m, maxBody);
    FindIncluded(Run(ops, n, maxBody), Run(ops, m, maxBody), key);
  }

  // ---------------------------------------------------------------- recency

  function RunFrom(es: Entries<CachedResponse>, ops: seq<Op>, maxEntries: nat, maxBody: nat): Entries<CachedResponse> {
    if ops == [] then es else Apply(RunFrom(es, ops[..|ops| - 1], maxEntries, maxBody), ops[|ops| - 1], maxEntries, maxBody)
  }

  /** The keys of the operations. */
  function UsedKeys(ops: seq<Op>): set<string> {
    if ops == [] then {}
    else
      var op := ops[|ops| - 1];
      UsedKeys(ops[..|ops| - 1]) + if op.Clear? then {} else {op.key}
  }

  lemma OthersKeep(es: Entries<CachedResponse>, i: nat, key: string, v: CachedResponse, used: set<string>, op: Op, n: nat, maxBody: nat)
    returns (k: nat)
    requires Distinct(es) && |es| <= n && Stands(es, i, key, v, used)
    requires !op.Clear? && op.key != key && |used + {op.key}| < n
    ensures Stands(Apply(es, op, n, maxBody), k, key, v, used + {op.key})
  {
    k := i;
    if op.Put? || Find(es, op.key).Some? {
      var e := if op.Put? then op.e else Find(es, op.key).value;
      MovedIsDistinct(es, op.key, e);
      var m := StandsWithout(es, i, key, v, used, op.key);
      hide Without, Find, Distinct;
      var moved := Without(es, op.key) + [(op.key, e)];
      assert Stands(moved, m, key, v, used + {op.key});
      if op.Get? {
        k := m;
      } else if |op.e.content| <= maxBody {
        FewBehind(moved, m, key, v, used + {op.key});
        k := if |moved| > n then m - (|moved| - n) else m;
      }
    }
  }

  lemma {:induction false} RunKeepsDistinct(es: Entries<CachedResponse>, ops: seq<Op>, n: nat, maxBody: nat)
    requires Distinct(es) && |es| <= n
    ensures Distinct(RunFrom(es, ops, n, maxBody)) && |RunFrom(es, ops, n, maxBody)| <= n
  {
    if ops != [] {
      RunKeepsDistinct(es, ops[..|ops| - 1], n, maxBody);
      var op := ops[|ops| - 1];
      if !op.Clear? {
        StepFacts(RunFrom(es, ops[..|ops| - 1], n, maxBody), op.key, if op.Put? then op.e else CachedResponse("", [], map[]), n, maxBody);
      }
    }
  }

  lemma {:induction false} EntryStays(es: Entries<CachedResponse>, i: nat, key: string, v: CachedResponse, ops: seq<Op>, n: nat, maxBody: nat)
    returns (k: nat)
    requires Distinct(es) && |es| <= n && Stands(es, i, key, v, {})
    requires (forall op :: op in ops ==> !op.Clear? && op.key != key) && |UsedKeys(ops)| < n
    ensures Stands(RunFrom(es, ops, n, maxBody), k, key, v, UsedKeys(ops))
  {
    if ops == [] {
      k := i;
    } else {
      var init, op := ops[..|ops| - 1], ops[|ops| - 1];
      assert ops == init + [op];
      FewerKeys(UsedKeys(init), UsedKeys(ops));
      k := EntryStays(es, i, key, v, init, n, maxBody);
      RunKeepsDistinct(es, init, n, maxBody);
      k := OthersKeep(RunFrom(es, init, n, maxBody), k, key, v, UsedKeys(init), op, n, maxBody);
    }
  }

  /** Main result: a response that was just stored, or just hit, is hit again, the same, as long as
      the cache is not cleared and fewer other keys than the limit are looked up or stored in between. */
  lemma KeptWhileRecent(ops: seq<Op>, use: Op, more: seq<Op>, n: nat, maxBody: nat)
    requires n > 0 && !use.Clear?
    requires use.Put? ==> |use.e.content| <= maxBody
    requires use.Get? ==> Find(Run(ops, n, maxBody), use.key).Some?
    requires (forall op :: op in more ==> !op.Clear? && op.key != use.key) && |UsedKeys(more)| < n
    ensures var v := if use.Put? then use.e else Find(Run(ops, n, maxBody), use.key).value;
            Find(RunFrom(Apply(Run(ops, n, maxBody), use, n, maxBody), more, n, maxBody), use.key) == Some(v)
  {
    var es := Run(ops, n, maxBody);
    SmallerCacheIsIncluded(ops, n, n, maxBody);
    var v := if use.Put? then use.e else Find(es, use.key).value;
    StepFacts(es, use.key, v, n, maxBody);
    var now := Apply(es, use, n, maxBody);
    assert Stands(now, |now| - 1, use.key, v, {});
    var k := EntryStays(now, |now| - 1, use.key, v, more, n, maxBody);
    RunKeepsDistinct(now, more, n, maxBody);
    var after := RunFrom(now, more, n, maxBody);
    FindFacts(after, use.key);
    OneEntry(after, k, use.key, v);
  }

  lemma OneEntry(es: Entries<CachedResponse>, k: nat, key: string, v: CachedResponse)
    requires Distinct(es) && k < |es| && es[k] == (key, v)
    ensures Find(es, key) == Some(v)
  {
    FindFacts(es, key);
  }

  /** A body over the limit is not stored, and what is stored under its key stays. */
  lemma TooLargeIsIgnored(es: Entries<CachedResponse>, key: string, e: CachedResponse, n: nat, maxBody: nat)
    requires |e.content| > maxBody
    ensures Apply(es, Put(key, e), n, maxBody) == es
  {
  }

  function CacheKey(auth: string, path: string): string {
    auth + "\n" + path
  }

  /** Two credentials never share an entry as long as a fingerprint has no line break. */
  lemma CacheKeySeparates(auth1: string, path1: string, auth2: string, path2: string)
    requires '\n' !in auth1 && '\n' !in auth2
    requires CacheKey(auth1, path1) == CacheKey(auth2, path2)
    ensures auth1 == auth2 && path1 == path2
  {
    var k := CacheKey(auth1, path1);
    assert |auth1| == |auth2| by {
      assert k[|auth1|] == '\n' && k[|auth2|] == '\n';
      assert forall i | 0 <= i < |auth1| :: k[i] == auth1[i] && auth1[i] in auth1;
      assert forall i | 0 <= i < |auth2| :: k[i] == auth2[i] && auth2[i] in auth2;
    }
    assert auth1 == k[..|auth1|] && auth2 == k[..|auth2|];
    assert path1 == k[|auth1| + 1..] && path2 == k[|auth2| + 1..];
  }
}
