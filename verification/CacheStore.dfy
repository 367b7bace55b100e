/** The store behind the cache (backend/cache_utils.py): time to live on lookup, and eviction
    of a batch of the least recently used entries when a new key meets a full store. */
module CacheStore {
  import opened Common
  import opened Lru

  /** A cached value (`None` is Python's None) and when it was stored. */
  datatype Stamped = Stamped(value: Option<string>, at: real)

  function Lookup(es: Entries<Stamped>, key: string, ttl: real, now: real): Option<string> {
    match Find(es, key)
    case None => None
    case Some(e) => if now - e.at < ttl then e.value else None
  }

  /** A hit is marked recently used; an entry past this ttl is kept where it is. */
  function AfterGet(es: Entries<Stamped>, key: string, ttl: real, now: real): Entries<Stamped> {
    match Find(es, key)
    case None => es
    case Some(e) => if now - e.at < ttl then Without(es, key) + [(key, e)] else es
  }

  function Evicted(es: Entries<Stamped>, batch: nat): Entries<Stamped> {
    if batch <= |es| then es[batch..] else []
  }

  function AfterSet(es: Entries<Stamped>, key: string, value: Option<string>, now: real, maxSize: nat, batch: nat)
    : Entries<Stamped>
  {
    if Find(es, key).Some? then Without(es, key) + [(key, Stamped(value, now))]
    else (if |es| >= maxSize then Evicted(es, batch) else es) + [(key, Stamped(value, now))]
  }

  class Cache {
    const maxSize: nat
    const evictBatch: nat
    var store: Entries<Stamped>

    constructor (maxSize: nat, evictBatch: nat)
      ensures store == [] && this.maxSize == maxSize && this.evictBatch == evictBatch
    {
      store, this.maxSize, this.evictBatch := [], maxSize, evictBatch;
    }

    method Get(key: string, ttl: real, now: real) returns (r: Option<string>)
      modifies this
      ensures r == Lookup(old(store), key, ttl, now)
      ensures store == AfterGet(old(store), key, ttl, now)
    {
      var entry := Find(store, key);
      if entry.Some? && now - entry.value.at < ttl {
        store := Without(store, key) + [(key, entry.value)];
        return entry.value.value;
      }
      return None;
    }

    method Set(key: string, value: Option<string>, now: real)
      modifies this
      ensures store == AfterSet(old(store), key, value, now, maxSize, evictBatch)
    {
      if Find(store, key).Some? {
        store := Without(store, key);
      } else if |store| >= maxSize {
        for i := 0 to evictBatch
          invariant store == Evicted(old(store), i)
        {
          if store != [] {
            store := store[1..];
          }
        }
      }
      store := store + [(key, Stamped(value, now))];
    }

    method Delete(key: string)
      modifies this
      ensures store == Without(old(store), key)
    {
      store := Without(store, key);
    }
  }

  datatype Op =
    | Get(key: string, ttl: real, now: real)
    | Set(key: string, value: Option<string>, now: real)
    | Delete(key: string)

  function Apply(es: Entries<Stamped>, op: Op, maxSize: nat, batch: nat): Entries<Stamped> {
    match op
    case Get(key, ttl, now) => AfterGet(es, key, ttl, now)
    case Set(key, value, now) => AfterSet(es, key, value, now, maxSize, batch)
    case Delete(key) => Without(es, key)
  }

  function Run(ops: seq<Op>, maxSize: nat, batch: nat): Entries<Stamped> {
    if ops == [] then [] else Apply(Run(ops[..|ops| - 1], maxSize, batch), ops[|ops| - 1], maxSize, batch)
  }

  /** Main result: with a positive batch the store never holds more than its limit, whatever
      is looked up, set and deleted, and no key occurs twice. */
  lemma {:induction false} StoreStaysBounded(ops: seq<Op>, maxSize: nat, batch: nat)
    requires maxSize > 0 && batch > 0
    ensures |Run(ops, maxSize, batch)| <= maxSize && Distinct(Run(ops, maxSize, batch))
  {
    if ops != [] {
      var before, op := Run(ops[..|ops| - 1], maxSize, batch), ops[|ops| - 1];
      StoreStaysBounded(ops[..|ops| - 1], maxSize, batch);
      WithoutFacts(before, op.key);
      FindFacts(before, op.key);
      MovedIsDistinct(before, op.key, Stamped(None, 0.0));
    }
  }

  /** The entry that was just set is not among the evicted ones: it is found until its time
      is up, as long as only other keys are looked up and nothing more is evicted. */
  lemma SetIsFound(es: Entries<Stamped>, key: string, value: Option<string>, now: real, maxSize: nat, batch: nat,
                   ttl: real, later: real)
    ensures Lookup(AfterSet(es, key, value, now, maxSize, batch), key, ttl, later)
            == if later - now < ttl then value else None
  {
  }

  function Name(n: nat): (r: string)
    ensures |r| == n
  {
    if n == 0 then "" else Name(n - 1) + "x"
  }

  /** Sets of n different keys. */
  function Filling(n: nat): seq<Op> {
    if n == 0 then [] else Filling(n - 1) + [Set(Name(n - 1), None, 0.0)]
  }

  predicate ShortKeys(es: Entries<Stamped>, n: nat) {
    forall i | 0 <= i < |es| :: |es[i].0| < n
  }

  lemma LongerKeyIsNew(es: Entries<Stamped>, n: nat, maxSize: nat)
    requires ShortKeys(es, n)
    ensures var now := AfterSet(es, Name(n), None, 0.0, maxSize, 0);
            |now| == |es| + 1 && ShortKeys(now, n + 1)
  {
    FindFacts(es, Name(n));
    assert es[0..] == es;
    hide Find;
  }

  lemma {:induction false} NothingIsEvicted(n: nat, maxSize: nat)
    ensures |Run(Filling(n), maxSize, 0)| == n && ShortKeys(Run(Filling(n), maxSize, 0), n)
  {
    hide AfterSet, AfterGet, Name, ShortKeys;
    if n == 0 {
      assert ShortKeys([], 0) by { NoKeys(); }
    } else {
      NothingIsEvicted(n - 1, maxSize);
      LongerKeyIsNew(Run(Filling(n - 1), maxSize, 0), n - 1, maxSize);
      assert Filling(n)[..|Filling(n)| - 1] == Filling(n - 1);
    }
  }

  lemma NoKeys()
    ensures ShortKeys([], 0)
  {
  }

  /** Main result: every run stays within the limit if and only if the limit and the batch are
      both positive. */
  lemma BoundedIff(maxSize: nat, batch: nat)
    ensures (forall ops :: |Run(ops, maxSize, batch)| <= maxSize) <==> maxSize > 0 && batch > 0
  {
    if maxSize > 0 && batch > 0 {
      forall ops ensures |Run(ops, maxSize, batch)| <= maxSize {
        StoreStaysBounded(ops, maxSize, batch);
      }
    } else if batch == 0 {
      NothingIsEvicted(maxSize + 1, maxSize);
      assert |Run(Filling(maxSize + 1), maxSize, batch)| > maxSize;
    } else {
      var set1 := Set("", None, 0.0);
      assert [set1][..0] == [];
      assert |Run([set1], maxSize, batch)| == 1;
    }
  }

  // ---------------------------------------------------------------- recency

  function RunFrom(es: Entries<Stamped>, ops: seq<Op>, maxSize: nat, batch: nat): Entries<Stamped> {
    if ops == [] then es else Apply(RunFrom(es, ops[..|ops| - 1], maxSize, batch), ops[|ops| - 1], maxSize, batch)
  }

  /** The keys of the operations. */
  function UsedKeys(ops: seq<Op>): set<string> {
    if ops == [] then {} else UsedKeys(ops[..|ops| - 1]) + {ops[|ops| - 1].key}
  }

  lemma OthersKeep(es: Entries<Stamped>, i: nat, key: string, v: Stamped, used: set<string>, op: Op, maxSize: nat, batch: nat)
    returns (k: nat)
    requires Distinct(es) && |es| <= maxSize && Stands(es, i, key, v, used)
    requires op.key != key && |used + {op.key}| + batch <= maxSize
    ensures Stands(Apply(es, op, maxSize, batch), k, key, v, used + {op.key})
  {
    if Find(es, op.key).None? {
      k := NewKeeps(es, i, key, v, used, op, maxSize, batch);
    } else {
      hide Without, Find, Distinct;
      var m := StandsWithout(es, i, key, v, used, op.key);
      k := if op.Get? && !(op.now - Find(es, op.key).value.at < op.ttl) then i else m;
    }
  }

  lemma NewKeeps(es: Entries<Stamped>, i: nat, key: string, v: Stamped, used: set<string>, op: Op, maxSize: nat, batch: nat)
    returns (k: nat)
    requires Distinct(es) && |es| <= maxSize && Stands(es, i, key, v, used) && Find(es, op.key).None?
    requires op.key != key && |used + {op.key}| + batch <= maxSize
    ensures Stands(Apply(es, op, maxSize, batch), k, key, v, used + {op.key})
  {
    FindFacts(es, op.key);
    WithoutNothing(es, op.key);
    hide Without, Find, Distinct;
    Smaller(used, op.key);
    FewBehind(es, i, key, v, used - {op.key});
    k := if op.Set? && |es| >= maxSize then i - batch else i;
  }

  lemma Smaller(used: set<string>, key: string)
    ensures |used - {key}| + 1 == |used + {key}|
  {
    assert (used - {key}) + {key} == used + {key};
  }

  lemma {:induction false} RunKeepsBounds(es: Entries<Stamped>, ops: seq<Op>, maxSize: nat, batch: nat)
    requires Distinct(es) && |es| <= maxSize && maxSize > 0 && batch > 0
    ensures Distinct(RunFrom(es, ops, maxSize, batch)) && |RunFrom(es, ops, maxSize, batch)| <= maxSize
  {
    if ops != [] {
      var before, op := RunFrom(es, ops[..|ops| - 1], maxSize, batch), ops[|ops| - 1];
      RunKeepsBounds(es, ops[..|ops| - 1], maxSize, batch);
      WithoutFacts(before, op.key);
      FindFacts(before, op.key);
      MovedIsDistinct(before, op.key, Stamped(None, 0.0));
    }
  }

  lemma {:induction false} EntryStays(es: Entries<Stamped>, i: nat, key: string, v: Stamped, ops: seq<Op>, maxSize: nat, batch: nat)
    returns (k: nat)
    requires Distinct(es) && |es| <= maxSize && batch > 0 && Stands(es, i, key, v, {})
    requires (forall op :: op in ops ==> op.key != key) && |UsedKeys(ops)| + batch <= maxSize
    ensures Stands(RunFrom(es, ops, maxSize, batch), k, key, v, UsedKeys(ops))
  {
    if ops == [] {
      k := i;
    } else {
      var init, op := ops[..|ops| - 1], ops[|ops| - 1];
      assert ops == init + [op];
      FewerKeys(UsedKeys(init), UsedKeys(ops));
      k := EntryStays(es, i, key, v, init, maxSize, batch);
      RunKeepsBounds(es, init, maxSize, batch);
      hide Apply;
      k := OthersKeep(RunFrom(es, init, maxSize, batch), k, key, v, UsedKeys(init), op, maxSize, batch);
    }
  }

  /** Main result: a value that was just set, or just found, is found again until its time is up, as
      long as no more than the limit less one batch of other keys are used in between. */
  lemma KeptWhileRecent(
    ops: seq<Op>, key: string, value: Option<string>, at: real, more: seq<Op>, maxSize: nat, batch: nat, ttl: real, now: real)
    requires batch > 0 && (forall op :: op in more ==> op.key != key) && |UsedKeys(more)| + batch <= maxSize
    ensures var es := Run(ops, maxSize, batch);
            Lookup(RunFrom(AfterSet(es, key, value, at, maxSize, batch), more, maxSize, batch), key, ttl, now)
            == if now - at < ttl then value else None
    ensures var es := Run(ops, maxSize, batch);
            Lookup(es, key, ttl, at).Some? ==>
              Lookup(RunFrom(AfterGet(es, key, ttl, at), more, maxSize, batch), key, ttl, at) == Lookup(es, key, ttl, at)
  {
    var es := Run(ops, maxSize, batch);
    StoreStaysBounded(ops, maxSize, batch);
    WithoutFacts(es, key);
    FindFacts(es, key);
    MovedIsDistinct(es, key, Stamped(value, at));
    var set' := AfterSet(es, key, value, at, maxSize, batch);
    assert Stands(set', |set'| - 1, key, Stamped(value, at), {});
    StaysFound(set', key, Stamped(value, at), more, maxSize, batch);
    if Lookup(es, key, ttl, at).Some? {
      var v := Find(es, key).value;
      MovedIsDistinct(es, key, v);
      var got := AfterGet(es, key, ttl, at);
      assert Stands(got, |got| - 1, key, v, {});
      StaysFound(got, key, v, more, maxSize, batch);
    }
  }

  lemma StaysFound(es: Entries<Stamped>, key: string, v: Stamped, more: seq<Op>, maxSize: nat, batch: nat)
    requires Distinct(es) && |es| <= maxSize && batch > 0 && es != [] && Stands(es, |es| - 1, key, v, {})
    requires (forall op :: op in more ==> op.key != key) && |UsedKeys(more)| + batch <= maxSize
    ensures Find(RunFrom(es, more, maxSize, batch), key) == Some(v)
  {
    var k := EntryStays(es, |es| - 1, key, v, more, maxSize, batch);
    RunKeepsBounds(es, more, maxSize, batch);
    FindFacts(RunFrom(es, more, maxSize, batch), key);
  }

  /** How many entries a set leaves: one more for a new key, less a batch, or the whole store, when it
      was full. */
  lemma SetLeaves(es: Entries<Stamped>, key: string, value: Option<string>, now: real, maxSize: nat, batch: nat)
    requires Distinct(es)
    ensures |AfterSet(es, key, value, now, maxSize, batch)|
            == if exists i | 0 <= i < |es| :: es[i].0 == key then |es|
               else if |es| >= maxSize then Max(|es| - batch, 0) + 1 else |es| + 1
  {
    WithoutFacts(es, key);
    FindFacts(es, key);
  }

  /** What was deleted is not found. */
  lemma DeletedIsGone(es: Entries<Stamped>, key: string, other: string)
    requires Distinct(es)
    ensures Find(Without(es, key), other) == if other == key then None else Find(es, other)
  {
    FoundWithout(es, key, other);
  }

  /** Only a lookup that finds a value young enough counts as a use. */
  lemma OnlyHitsAreUses(es: Entries<Stamped>, i: nat, ttl: real, now: real)
    requires Distinct(es) && i < |es|
    ensures var key, at := es[i].0, es[i].1.at;
            if now - at < ttl then AfterGet(es, key, ttl, now) == Without(es, key) + [es[i]]
            else AfterGet(es, key, ttl, now) == es
  {
    FindFacts(es, es[i].0);
  }
}
