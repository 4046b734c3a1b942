/** The occurrence counter that `getHandDetails` builds with its `count` reducer: a JavaScript
    object mapping each key to how often it was seen. Keys are kept in insertion order. For
    `counts`, keyed by the one-letter faces, that is the order `Object.values` lists them in. For
    `duplicates`, keyed by the counts 1..5, JavaScript would list the keys in numeric order
    instead; the model does not follow that, and needs not, because `duplicates` is only read
    key by key with `Get`. */
module Tally {

  type Tally<K> = seq<(K, nat)>

  /** `c[a] || 0`: the stored count, or 0 for a key never seen. */
  function Get<K(==)>(t: Tally<K>, k: K): nat
  {
    if t == [] then 0 else if t[0].0 == k then t[0].1 else Get(t[1..], k)
  }

  /** A key never counted reads as 0. */
  lemma {:induction false} GetAbsent<K>(t: Tally<K>, k: K)
    requires k !in KeySet(t)
    ensures Get(t, k) == 0
  {
    if t != [] {
      KeySetCons(t[0], t[1..]);
      assert t == [t[0]] + t[1..];
      GetAbsent(t[1..], k);
    }
  }

  /** One step of the `count` reducer: `c[a] = (c[a] || 0) + 1`. */
  function Bump<K(==,!new)>(t: Tally<K>, k: K): (r: Tally<K>)
    ensures forall j :: Get(r, j) == Get(t, j) + (if j == k then 1 else 0)
    ensures KeySet(r) == KeySet(t) + {k}
  {
    if t == [] then
      assert KeySet([(k, 1)]) == {k} by { KeySetCons((k, 1), []); }
      [(k, 1)]
    else
      KeySetCons(t[0], t[1..]);
      assert t == [t[0]] + t[1..];
      if t[0].0 == k then
        KeySetCons((k, t[0].1 + 1), t[1..]);
        [(k, t[0].1 + 1)] + t[1..]
      else
        var rest := Bump(t[1..], k);
        KeySetCons(t[0], rest);
        [t[0]] + rest
  }

  /** `xs.reduce(count, {})`: a left fold of Bump. */
  function CountAll<K(==,!new)>(xs: seq<K>): Tally<K>
  {
    if xs == [] then [] else Bump(CountAll(xs[..|xs| - 1]), xs[|xs| - 1])
  }

  /** `Object.values`. */
  function Values<K>(t: Tally<K>): seq<nat>
  {
    seq(|t|, i requires 0 <= i < |t| => t[i].1)
  }

  function KeySet<K>(t: Tally<K>): set<K>
  {
    set i | 0 <= i < |t| :: t[i].0
  }

  predicate DistinctKeys<K(==)>(t: Tally<K>)
  {
    forall i, j :: 0 <= i < j < |t| ==> t[i].0 != t[j].0
  }

  lemma KeySetCons<K>(x: (K, nat), t: Tally<K>)
    ensures KeySet([x] + t) == {x.0} + KeySet(t)
  {
    var u := [x] + t;
    forall e | e in KeySet(u) ensures e in {x.0} + KeySet(t) {
      var i :| 0 <= i < |u| && u[i].0 == e;
      if i > 0 { assert t[i - 1].0 == e; }
    }
    forall e | e in KeySet(t) ensures e in KeySet(u) {
      var i :| 0 <= i < |t| && t[i].0 == e;
      assert u[i + 1].0 == e;
    }
    assert u[0].0 == x.0;
  }

  /** In a tally with distinct keys, the first key does not occur among the others. */
  lemma FirstKeyFresh<K>(t: Tally<K>)
    requires t != [] && DistinctKeys(t)
    ensures t[0].0 !in KeySet(t[1..])
  {
    forall i | 0 <= i < |t[1..]| ensures t[1..][i].0 != t[0].0 {
      assert t[1..][i] == t[i + 1];
    }
  }

  lemma BumpDistinct<K(!new)>(t: Tally<K>, k: K)
    requires DistinctKeys(t)
    ensures DistinctKeys(Bump(t, k))
  {
    if t != [] && t[0].0 != k {
      BumpDistinct(t[1..], k);
      var rest := Bump(t[1..], k);
      FirstKeyFresh(t);
      forall j | 0 <= j < |rest| ensures rest[j].0 != t[0].0 {
        assert rest[j].0 in KeySet(rest);
      }
    }
  }

  /** The counter holds, for every key, how often it occurs in the input, and nothing else. */
  lemma {:induction false} CountAllCounts<K(!new)>(xs: seq<K>)
    ensures forall k :: Get(CountAll(xs), k) == multiset(xs)[k]
    ensures KeySet(CountAll(xs)) == set x | x in xs
    ensures DistinctKeys(CountAll(xs))
  {
    if xs != [] {
      var init := xs[..|xs| - 1];
      CountAllCounts(init);
      BumpDistinct(CountAll(init), xs[|xs| - 1]);
      assert xs == init + [xs[|xs| - 1]];
      assert multiset(xs) == multiset(init) + multiset{xs[|xs| - 1]};
      assert (set x | x in xs) == (set x | x in init) + {xs[|xs| - 1]};
    }
  }

  /** The keys whose count is exactly `n`. */
  function KeysWithCount<K>(t: Tally<K>, n: nat): set<K>
  {
    set k | k in KeySet(t) && Get(t, k) == n
  }

  lemma KeysWithCountCons<K>(t: Tally<K>, n: nat)
    requires t != [] && DistinctKeys(t)
    ensures t[0].0 !in KeysWithCount(t[1..], n)
    ensures KeysWithCount(t, n) == (if t[0].1 == n then {t[0].0} else {}) + KeysWithCount(t[1..], n)
  {
    FirstKeyFresh(t);
    assert t == [t[0]] + t[1..];
    KeySetCons(t[0], t[1..]);
  }

  /** With distinct keys, a value occurs in `Object.values` once per key holding it. */
  lemma {:induction false} ValuesCount<K>(t: Tally<K>, n: nat)
    requires DistinctKeys(t)
    ensures multiset(Values(t))[n] == |KeysWithCount(t, n)|
  {
    if t == [] {
      assert KeysWithCount(t, n) == {};
    } else {
      var rest := t[1..];
      assert DistinctKeys(rest);
      ValuesCount(rest, n);
      assert Values(t) == [t[0].1] + Values(rest);
      KeysWithCountCons(t, n);
    }
  }
}
