/** Ordered dictionaries, from least to most recently used. */
module Lru {
  import opened Common

  type Entries<V> = seq<(string, V)>

  predicate Distinct<V>(es: Entries<V>) {
    forall i, j | 0 <= i < j < |es| :: es[i].0 != es[j].0
  }

  function Find<V>(es: Entries<V>, key: string): Option<V> {
    if es == [] then None
    else if es[|es| - 1].0 == key then Some(es[|es| - 1].1)
    else Find(es[..|es| - 1], key)
  }

  function Without<V>(es: Entries<V>, key: string): Entries<V> {
    if es == [] then []
    else
      var init := Without(es[..|es| - 1], key);
      if es[|es| - 1].0 == key then init else init + [es[|es| - 1]]
  }

  /** A key is found exactly when an entry carries it, and then with that entry's value. */
  lemma {:induction false} FindFacts<V>(es: Entries<V>, key: string)
    ensures Find(es, key).None? <==> forall i | 0 <= i < |es| :: es[i].0 != key
    ensures Find(es, key).Some? ==> (key, Find(es, key).value) in es
  {
    if es != [] {
      var init, last := es[..|es| - 1], es[|es| - 1];
      assert es == init + [last];
      FindFacts(init, key);
      if last.0 == key {
        assert es[|es| - 1].0 == key && last == (key, last.1) && last in es;
      } else if Find(init, key).None? {
        assert forall i | 0 <= i < |init| :: es[i] == init[i];
      }
    }
  }

  lemma {:induction false} WithoutFacts<V>(es: Entries<V>, key: string)
    requires Distinct(es)
    ensures Distinct(Without(es, key))
    ensures forall i | 0 <= i < |Without(es, key)| :: Without(es, key)[i] in es && Without(es, key)[i].0 != key
    ensures |Without(es, key)| == if Find(es, key).Some? then |es| - 1 else |es|
  {
    if es != [] {
      var init, last := es[..|es| - 1], es[|es| - 1];
      assert es == init + [last];
      WithoutFacts(init, key);
      if last.0 == key {
        FindFacts(init, key);
        WithoutNothing(init, key);
      } else {
        var rest := Without(init, key);
        forall i | 0 <= i < |rest| ensures rest[i].0 != last.0 {
          var j :| 0 <= j < |init| && init[j] == rest[i];
          assert es[j] == init[j];
        }
      }
    }
  }

  lemma {:induction false} WithoutNothing<V>(es: Entries<V>, key: string)
    requires Find(es, key).None?
    ensures Without(es, key) == es
  {
    if es != [] {
      WithoutNothing(es[..|es| - 1], key);
    }
  }

  /** Moving a key to the recently used end keeps the keys distinct. */
  lemma MovedIsDistinct<V>(es: Entries<V>, key: string, v: V)
    requires Distinct(es)
    ensures Distinct(Without(es, key) + [(key, v)])
    ensures |Without(es, key)| == if Find(es, key).Some? then |es| - 1 else |es|
  {
    WithoutFacts(es, key);
  }

  /** An entry, and what was used after it. */
  predicate Stands<V(==)>(es: Entries<V>, i: nat, key: string, v: V, used: set<string>) {
    i < |es| && es[i] == (key, v) && forall j | i < j < |es| :: es[j].0 in used
  }

  /** Behind an entry there are no more entries than keys used after it. */
  lemma FewBehind<V>(es: Entries<V>, i: nat, key: string, v: V, used: set<string>)
    requires Distinct(es) && Stands(es, i, key, v, used)
    ensures |es| - 1 - i <= |used|
  {
    KeysBehind(es, i + 1, used);
  }

  lemma {:induction false} KeysBehind<V>(es: Entries<V>, from: nat, used: set<string>)
    requires Distinct(es) && from <= |es| && forall j | from <= j < |es| :: es[j].0 in used
    ensures |es| - from <= |used|
    decreases |es| - from
  {
    if from < |es| {
      KeysBehind(es, from + 1, used - {es[from].0});
    }
  }

  /** Taking out another key leaves the entry, with one key less behind it. */
  lemma {:induction false} StandsWithout<V>(es: Entries<V>, i: nat, key: string, v: V, used: set<string>, other: string)
    returns (k: nat)
    requires Stands(es, i, key, v, used) && other != key
    ensures Stands(Without(es, other), k, key, v, used - {other})
  {
    var init, last := es[..|es| - 1], es[|es| - 1];
    if i == |es| - 1 {
      k := |Without(init, other)|;
    } else {
      k := StandsWithout(init, i, key, v, used, other);
    }
  }

  lemma {:induction false} FewerKeys(a: set<string>, b: set<string>)
    requires a <= b
    ensures |a| <= |b|
  {
    if a != {} {
      var x :| x in a;
      FewerKeys(a - {x}, b - {x});
    }
  }

  /** Taking out a key changes nothing for the others. */
  lemma {:induction false} FoundWithout<V>(es: Entries<V>, key: string, other: string)
    ensures Find(Without(es, key), other) == if other == key then None else Find(es, other)
  {
    if es != [] {
      var init, last := es[..|es| - 1], es[|es| - 1];
      FoundWithout(init, key, other);
      assert (Without(init, key) + [last])[..|Without(init, key)|] == Without(init, key);
    }
  }
}
